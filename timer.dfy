/** The timer as the page runs it: module-level variables updated in place by
    the event handlers of timer.js. `ticking` stands for a live
    `countdownInterval`; `screenAwake` and the two counters record the calls
    made to enableScreenAwake and disableScreenAwake, whose effects are outside
    the model. The text and sector on screen are kept as the values last
    written by updateTimerTextAndArc. */
module TimerMachine {
  import opened TimeText
  import opened Arc
  import opened TimerSpec

  /** The clock text shown for a remaining time given in tenths. */
  function ClockText(tenths: int): string
  {
    FormatTime(tenths as real / 10.0)
  }

  /** The sector shown for a remaining time against the total, both in tenths. */
  function SectorFor(remaining: int, total: int): ArcPath
  {
    ArcFor(remaining as real, total as real)
  }

  /** A stored duration that init can restore: two numbers both offered by the
      selectors. */
  predicate Restorable(stored: string)
  {
    match ParseStored(stored)
    case Some((mm, ss)) => mm < 60 && ss < 60
    case None => false
  }

  /** The selector values init sets: 20:00 when nothing (or the empty
      string) is stored, otherwise the stored minutes and seconds. */
  function Restored(stored: string): (sel: (nat, nat))
    requires stored == "" || Restorable(stored)
    ensures sel.0 < 60 && sel.1 < 60
    ensures stored == "" ==> sel == (20, 0)
    ensures stored != "" ==> ParseStored(stored) == Some(sel)
  {
    if stored == "" then (20, 0) else ParseStored(stored).value
  }

  /** What a dropdown change saves is what the next page load restores. */
  lemma SavedDurationRestores(mm: nat, ss: nat)
    requires mm < 60 && ss < 60
    ensures EncodeStored(mm, ss) != "" && Restorable(EncodeStored(mm, ss))
    ensures Restored(EncodeStored(mm, ss)) == (mm, ss)
  {
    StoredRoundTrip(mm, ss);
  }

  /** A finished timer shows "0:00" and no sector, whatever the total. */
  lemma FinishedDisplay(total: int)
    ensures ClockText(0) == "0:00" && SectorFor(0, total) == Empty
  {
    FormatTimeExamples();
    ArcForTimes(0.0, total as real);
  }

  /** A timer showing its whole selected duration shows it as "m:ss" with the
      selected minutes and seconds. */
  lemma DurationText(mm: nat, ss: nat)
    requires ss < 60
    ensures ClockText(Duration(mm, ss)) == DecimalString(mm) + ":" + PadStart2(DecimalString(ss))
  {
    var k := mm * 60 + ss;
    var x := Duration(mm, ss) as real / 10.0;
    assert x == k as real by {
      assert Duration(mm, ss) == 10 * k;
      assert (10 * k) as real == 10.0 * k as real;
    }
    calc {
      ClockText(Duration(mm, ss));
      FormatTime(x);
      FormatTime(k as real);
      { FormatWholeSeconds(mm, ss); }
      DecimalString(mm) + ":" + PadStart2(DecimalString(ss));
    }
  }

  /** ... and a full circle unless the duration is zero. */
  lemma DurationSector(mm: nat, ss: nat)
    ensures SectorFor(Duration(mm, ss), Duration(mm, ss)) ==
      if Duration(mm, ss) == 0 then Empty else FullCircle
  {
    ArcForTimes(Duration(mm, ss) as real, Duration(mm, ss) as real);
  }

  class Timer {
    var state: State
    var totalTime: int
    var timeRemaining: int
    var ticking: bool
    var minutesSel: nat
    var secondsSel: nat
    /** The value under the storage key "timerValue". */
    var storedTime: string
    /** The fill attribute of the sector. */
    var fill: string
    /** The arguments of the last updateTimerTextAndArc call: the time it
        drew and the total it read. The circle shows ShownText() and
        ShownArc() until the next call. */
    var drawnRemaining: int
    var drawnTotal: int
    ghost var screenAwake: bool
    ghost var acquired: nat
    ghost var released: nat

    function ShownText(): string
      reads this`drawnRemaining
    {
      ClockText(drawnRemaining)
    }

    function ShownArc(): ArcPath
      reads this`drawnRemaining, this`drawnTotal
    {
      SectorFor(drawnRemaining, drawnTotal)
    }

    ghost function Snapshot(): Session
      reads this`state, this`totalTime, this`timeRemaining, this`ticking, this`screenAwake,
        this`minutesSel, this`secondsSel
    {
      Session(state, totalTime, timeRemaining, ticking, screenAwake, minutesSel, secondsSel)
    }

    /** The state machine's invariant, the colour of the current state, the
        saved duration matching the selectors, and every request to keep the
        screen awake released except the one of a current run. */
    ghost predicate Valid()
      reads this`state, this`totalTime, this`timeRemaining, this`ticking, this`screenAwake,
        this`minutesSel, this`secondsSel, this`fill, this`storedTime, this`acquired, this`released
    {
      Inv(Snapshot()) && FillMatches() && StoredMatches() &&
      acquired == released + (if state == Running then 1 else 0)
    }

    /** The sector is filled with the colour of the current state. */
    ghost predicate FillMatches()
      reads this`state, this`fill
    {
      fill == StateColor(state)
    }

    /** The saved duration string is the one for the current selectors. */
    ghost predicate StoredMatches()
      reads this`storedTime, this`minutesSel, this`secondsSel
    {
      storedTime == EncodeStored(minutesSel, secondsSel)
    }

    /** The module-level variables as the script declares them, before init
        runs: idle, no time, no interval, the screen never asked to stay awake. */
    constructor ()
      ensures state == Idle && totalTime == 0 && timeRemaining == 0 && !ticking
      ensures !screenAwake && acquired == 0 && released == 0
    {
      state, totalTime, timeRemaining, ticking := Idle, 0, 0, false;
      minutesSel, secondsSel := 0, 0;
      storedTime, fill, drawnRemaining, drawnTotal := "", "", 0, 0;
      screenAwake, acquired, released := false, 0, 0;
    }

    /** init, run once on page load with the stored duration string ("" when
        there is none): restore the selectors, go idle, take the duration from
        the selectors and draw it. */
    method Init(stored: string)
      requires stored == "" || Restorable(stored)
      requires !ticking && !screenAwake && acquired == released
      modifies this
      ensures Valid()
      ensures Snapshot() == Initial(Restored(stored).0, Restored(stored).1)
      ensures drawnRemaining == timeRemaining && drawnTotal == totalTime
      ensures acquired == old(acquired) && released == old(released)
    {
      var sel := Restored(stored);
      minutesSel, secondsSel := sel.0, sel.1;
      SetTimerState(Idle);
      UpdateTimerFromDropdown();
      UpdateTimerTextAndArc(timeRemaining);
    }

    method SetTimerState(s: State)
      modifies this`state, this`fill
      ensures state == s && fill == StateColor(s)
    {
      state := s;
      fill := StateColor(s);
    }

    /** Reads both selectors, sets the total, saves the duration string and,
        when idle or finished, resets the time left. */
    method UpdateTimerFromDropdown()
      modifies this`totalTime, this`timeRemaining, this`storedTime
      ensures totalTime == Duration(minutesSel, secondsSel)
      ensures storedTime == EncodeStored(minutesSel, secondsSel)
      ensures timeRemaining == if state == Idle || state == Finished then totalTime else old(timeRemaining)
    {
      var mm, ss := minutesSel, secondsSel;
      totalTime := Duration(mm, ss);
      storedTime := EncodeStored(mm, ss);
      if state == Idle || state == Finished {
        timeRemaining := totalTime;
      }
    }

    /** The change listener of the minutes selector. The display is not
        redrawn. */
    method ChangeMinutes(mm: nat)
      requires Valid() && mm < 60
      modifies this`minutesSel, this`totalTime, this`timeRemaining, this`storedTime
      ensures Valid()
      ensures Snapshot() == TimerSpec.ChangeMinutes(old(Snapshot()), mm)
    {
      minutesSel := mm;
      UpdateTimerFromDropdown();
    }

    /** The change listener of the seconds selector. */
    method ChangeSeconds(ss: nat)
      requires Valid() && ss < 60
      modifies this`secondsSel, this`totalTime, this`timeRemaining, this`storedTime
      ensures Valid()
      ensures Snapshot() == TimerSpec.ChangeSeconds(old(Snapshot()), ss)
    {
      secondsSel := ss;
      UpdateTimerFromDropdown();
    }

    /** onCircleTap. */
    method OnCircleTap()
      requires Valid()
      modifies this
      ensures Valid()
      ensures Snapshot() == Tap(old(Snapshot()))
      ensures minutesSel == old(minutesSel) && secondsSel == old(secondsSel) && storedTime == old(storedTime)
      ensures old(state) == Running ==>
        released == old(released) + 1 && acquired == old(acquired) &&
        drawnRemaining == old(drawnRemaining) && drawnTotal == old(drawnTotal)
      ensures old(state) != Running ==>
        acquired == old(acquired) + 1 && released == old(released) &&
        drawnRemaining == timeRemaining && drawnTotal == totalTime
    {
      if state == Idle || state == Finished {
        StartTimer();
        SetTimerState(Running);
        EnableScreenAwake();
      } else if state == Running {
        PauseTimer();
        SetTimerState(Paused);
        DisableScreenAwake();
      } else if state == Paused {
        ResumeTimer();
        SetTimerState(Running);
        EnableScreenAwake();
      }
    }

    /** Clears the old interval, rereads the selectors and starts a run with
        the whole duration left. */
    method StartTimer()
      requires state == Idle || state == Finished
      modifies this`ticking, this`totalTime, this`timeRemaining, this`storedTime, this`drawnRemaining, this`drawnTotal
      ensures ticking && totalTime == Duration(minutesSel, secondsSel) && timeRemaining == totalTime
      ensures storedTime == EncodeStored(minutesSel, secondsSel)
      ensures drawnRemaining == timeRemaining && drawnTotal == totalTime
    {
      ticking := false;
      UpdateTimerFromDropdown();
      timeRemaining := totalTime;
      RunInterval();
    }

    method PauseTimer()
      modifies this`ticking
      ensures !ticking
    {
      ticking := false;
    }

    method ResumeTimer()
      modifies this`ticking, this`drawnRemaining, this`drawnTotal
      ensures ticking
      ensures drawnRemaining == timeRemaining && drawnTotal == totalTime
    {
      RunInterval();
    }

    /** Draws the current time and sets up the interval. */
    method RunInterval()
      modifies this`ticking, this`drawnRemaining, this`drawnTotal
      ensures ticking
      ensures drawnRemaining == timeRemaining && drawnTotal == totalTime
    {
      UpdateTimerTextAndArc(timeRemaining);
      ticking := true;
    }

    /** One firing of the interval set up by runInterval. */
    method Tick()
      requires Valid() && ticking
      modifies this
      ensures Valid()
      ensures Snapshot() == TimerSpec.Tick(old(Snapshot()))
      ensures minutesSel == old(minutesSel) && secondsSel == old(secondsSel) && storedTime == old(storedTime)
      ensures acquired == old(acquired)
      ensures released == old(released) + (if state == Finished then 1 else 0)
      ensures drawnRemaining == timeRemaining && drawnTotal == totalTime
    {
      timeRemaining := timeRemaining - Quantum;
      if timeRemaining <= 0 {
        timeRemaining := 0;
        ticking := false;
        SetTimerState(Finished);
        UpdateTimerTextAndArc(timeRemaining);
        DisableScreenAwake();
        return;
      }
      UpdateTimerTextAndArc(timeRemaining);
    }

    /** The text and sector part of updateTimerTextAndArc. */
    method UpdateTimerTextAndArc(remaining: int)
      modifies this`drawnRemaining, this`drawnTotal
      ensures drawnRemaining == remaining && drawnTotal == totalTime
    {
      drawnRemaining, drawnTotal := remaining, totalTime;
    }

    ghost method EnableScreenAwake()
      modifies this`screenAwake, this`acquired
      ensures screenAwake && acquired == old(acquired) + 1
    {
      screenAwake := true;
      acquired := acquired + 1;
    }

    ghost method DisableScreenAwake()
      modifies this`screenAwake, this`released
      ensures !screenAwake && released == old(released) + 1
    {
      screenAwake := false;
      released := released + 1;
    }
  }
}
