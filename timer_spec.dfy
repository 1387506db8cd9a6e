/** The countdown timer's state machine as values: one snapshot of the timer
    and one function per event handler of the page (a tap on the circle, one
    firing of the 100 ms interval, a change of either duration selector).
    The class in TimerMachine is proved to follow these functions. Times are
    whole tenths of a second: the tick quantum of 0.1 s is one unit. */
module TimerSpec {

  datatype State = Idle | Running | Paused | Finished

  /** The fill colour of the sector in each state; there is one table and it
      does not depend on the dark-mode setting. */
  function StateColor(s: State): (c: string)
    ensures |c| == 7 && c[0] == '#'
    ensures forall i :: 1 <= i < 7 ==> c[i] in "0123456789ABCDEF"
  {
    match s
    case Idle => "#007ACC"
    case Running => "#267F99"
    case Paused => "#9C4CAD"
    case Finished => "#B24747"
  }

  /** Each state is drawn in its own colour. */
  lemma ColorsDistinct(s: State, t: State)
    ensures StateColor(s) == StateColor(t) <==> s == t
  {
    if s != t {
      assert StateColor(s)[1] != StateColor(t)[1];
    }
  }

  /** The amount one firing of the interval subtracts: 0.1 s. */
  const Quantum: int := 1

  /** The duration the two selectors stand for, in tenths: mm * 60 + ss seconds. */
  function Duration(mm: nat, ss: nat): nat
  {
    10 * (mm * 60 + ss)
  }

  /** `timerState`, `totalTime`, `timeRemaining`, whether `countdownInterval`
      is a live interval, whether the screen was last asked to stay awake,
      and the values of the minutes and seconds selectors. */
  datatype Session = Session(
    state: State,
    totalTime: int,
    timeRemaining: int,
    ticking: bool,
    awake: bool,
    minutes: nat,
    seconds: nat)

  /** What holds of the timer after every event. `timeRemaining <= totalTime`
      is not part of it: a duration change during a run lowers only the total. */
  ghost predicate Inv(s: Session)
  {
    s.minutes < 60 && s.seconds < 60 &&
    s.totalTime == Duration(s.minutes, s.seconds) &&
    0 <= s.timeRemaining &&
    (s.ticking <==> s.state == Running) &&
    (s.awake <==> s.state == Running) &&
    (s.state == Idle ==> s.timeRemaining == s.totalTime)
  }

  /** init: the selectors get the restored (or default) minutes and seconds,
      the state becomes idle, and updateTimerFromDropdown sets both times. */
  function Initial(mm: nat, ss: nat): Session
  {
    Session(Idle, Duration(mm, ss), Duration(mm, ss), false, false, mm, ss)
  }

  lemma InitialIdle(mm: nat, ss: nat)
    requires mm < 60 && ss < 60
    ensures Inv(Initial(mm, ss))
    ensures Initial(mm, ss).state == Idle && !Initial(mm, ss).ticking
    ensures Initial(mm, ss).timeRemaining == Initial(mm, ss).totalTime == 10 * (mm * 60 + ss)
  {
  }

  /** updateTimerFromDropdown: the total always follows the selectors; the
      remaining time is reset to it only when idle or finished. */
  function FromDropdown(s: Session): Session
  {
    var total := Duration(s.minutes, s.seconds);
    s.(totalTime := total,
       timeRemaining := if s.state == Idle || s.state == Finished then total else s.timeRemaining)
  }

  /** A change event on the minutes selector. */
  function ChangeMinutes(s: Session, mm: nat): Session
  {
    FromDropdown(s.(minutes := mm))
  }

  /** A change event on the seconds selector. */
  function ChangeSeconds(s: Session, ss: nat): Session
  {
    FromDropdown(s.(seconds := ss))
  }

  /** onCircleTap: idle or finished starts a new run from the selected
      duration; running pauses; paused resumes with the time left. */
  function Tap(s: Session): Session
  {
    match s.state
    case Idle | Finished =>
      var d := FromDropdown(s);
      d.(state := Running, timeRemaining := d.totalTime, ticking := true, awake := true)
    case Running => s.(state := Paused, ticking := false, awake := false)
    case Paused => s.(state := Running, ticking := true, awake := true)
  }

  /** One firing of the interval: subtract a quantum; at or below zero the
      time is clamped to zero, the interval cleared and the run finished. */
  function Tick(s: Session): Session
    requires s.ticking
  {
    var r := s.timeRemaining - Quantum;
    if r <= 0 then s.(timeRemaining := 0, ticking := false, state := Finished, awake := false)
    else s.(timeRemaining := r)
  }

  /** Every handler keeps the invariant. */
  lemma TapKeepsInv(s: Session)
    requires Inv(s)
    ensures Inv(Tap(s))
  {
  }

  lemma TickKeepsInv(s: Session)
    requires Inv(s) && s.ticking
    ensures Inv(Tick(s))
  {
  }

  lemma ChangeKeepsInv(s: Session, mm: nat, ss: nat)
    requires Inv(s) && mm < 60 && ss < 60
    ensures Inv(ChangeMinutes(s, mm)) && Inv(ChangeSeconds(s, ss))
  {
  }

  /** The tap transitions: idle and finished go to running with the time left
      reset to the selected duration; running and paused swap, keeping the
      time left and the total. */
  lemma TapTransitions(s: Session)
    requires Inv(s)
    ensures s.state in {Idle, Finished} ==>
      Tap(s).state == Running && Tap(s).timeRemaining == Tap(s).totalTime == Duration(s.minutes, s.seconds)
    ensures s.state == Running ==>
      Tap(s).state == Paused && Tap(s).timeRemaining == s.timeRemaining && Tap(s).totalTime == s.totalTime
    ensures s.state == Paused ==>
      Tap(s).state == Running && Tap(s).timeRemaining == s.timeRemaining && Tap(s).totalTime == s.totalTime
    ensures Tap(s).minutes == s.minutes && Tap(s).seconds == s.seconds
  {
  }

  /** Pausing and resuming gives back exactly the running timer. */
  lemma PauseResume(s: Session)
    requires Inv(s) && s.state == Running
    ensures Tap(s).state == Paused && Tap(Tap(s)) == s
  {
  }

  /** A tick while running never raises the time left and either keeps
      running with one quantum less or finishes at exactly zero. */
  lemma TickStep(s: Session)
    requires Inv(s) && s.ticking
    ensures Tick(s).timeRemaining <= s.timeRemaining
    ensures Tick(s).state == Running ==> Tick(s).timeRemaining == s.timeRemaining - Quantum > 0
    ensures Tick(s).state != Running ==> Tick(s).state == Finished && Tick(s).timeRemaining == 0
    ensures Tick(s).state == Finished <==> s.timeRemaining <= Quantum
  {
  }

  /** A change of either selector never touches a run in progress: state,
      time left and the interval stay as they were, only the total follows the
      selectors. */
  lemma ChangeDuringRun(s: Session, mm: nat, ss: nat)
    requires s.state == Running || s.state == Paused
    ensures var t := ChangeMinutes(s, mm);
      t.state == s.state && t.timeRemaining == s.timeRemaining &&
      t.ticking == s.ticking && t.awake == s.awake &&
      t.totalTime == Duration(mm, s.seconds)
    ensures var t := ChangeSeconds(s, ss);
      t.state == s.state && t.timeRemaining == s.timeRemaining &&
      t.ticking == s.ticking && t.awake == s.awake &&
      t.totalTime == Duration(s.minutes, ss)
  {
  }

  /** When idle or finished, a change of either selector resets the time left
      to the new total and keeps the state. */
  lemma ChangeWhenStopped(s: Session, mm: nat, ss: nat)
    requires s.state == Idle || s.state == Finished
    ensures var t := ChangeMinutes(s, mm);
      t.state == s.state && t.timeRemaining == t.totalTime == Duration(mm, s.seconds)
    ensures var t := ChangeSeconds(s, ss);
      t.state == s.state && t.timeRemaining == t.totalTime == Duration(s.minutes, ss)
  {
  }

  /** The time left can exceed the total: lowering the minutes in the middle
      of a 20-minute run. */
  lemma RemainingCanExceedTotal()
    ensures var s := Tap(Initial(20, 0));
      Inv(s) && Inv(ChangeMinutes(s, 1)) &&
      ChangeMinutes(s, 1).timeRemaining > ChangeMinutes(s, 1).totalTime
  {
  }

  /** The session after `n` firings of the interval; firings stop once the
      interval has been cleared. */
  function Ticks(s: Session, n: nat): Session
    decreases n
  {
    if n == 0 || !s.ticking then s else Ticks(Tick(s), n - 1)
  }

  /** A run with `r` tenths left and no taps in between: after each of the
      first max(r, 1) - 1 firings it is still running with one quantum less per
      firing, and the next firing finishes it at exactly zero; from then on the
      timer stays finished. */
  lemma {:induction false} RunToFinish(s: Session, k: nat)
    requires Inv(s) && s.state == Running
    ensures var n := if s.timeRemaining <= 1 then 1 else s.timeRemaining;
      (k < n ==> Ticks(s, k).state == Running && Ticks(s, k).timeRemaining == s.timeRemaining - k) &&
      (k >= n ==> Ticks(s, k).state == Finished && Ticks(s, k).timeRemaining == 0 && !Ticks(s, k).ticking)
    decreases k
  {
    if k > 0 {
      var t := Tick(s);
      if t.state == Running {
        RunToFinish(t, k - 1);
      } else {
        FinishedStays(t, k - 1);
      }
    }
  }

  /** Once the interval is cleared, further firings change nothing. */
  lemma FinishedStays(s: Session, k: nat)
    requires !s.ticking
    ensures Ticks(s, k) == s
  {
  }

  /** A run with 0.3 s left is still running after two ticks and finishes
      after the third with nothing left. */
  lemma ThreeTenths(s: Session)
    requires Inv(s) && s.state == Running && s.timeRemaining == 3
    ensures Ticks(s, 2).state == Running && Ticks(s, 3).state == Finished
    ensures Ticks(s, 3).timeRemaining == 0
  {
    RunToFinish(s, 2);
    RunToFinish(s, 3);
  }
}
