# Countdown timer — a Dafny model

This project models the logic of `timer.js`, a single-page countdown timer.
The user picks minutes and seconds from two selectors, each offering 0 to 59,
and taps a circle to start, pause or resume a run. While the timer runs, an
interval fires every 100 ms and takes 0.1 s off the time left. The circle
shows the time left as "m:ss" text and as a pie sector of a full circle,
filled with the colour of the current state. The chosen duration is saved
under the storage key `timerValue` as minutes, a colon and seconds, neither
padded (`${mm}:${ss}`, so 5 minutes 7 seconds is "5:7"), and restored on the
next page load.

The model has four modules:

- `TimeText` (`time_text.dfy`) holds the text formats:
  - decimal rendering of whole numbers;
  - `padStart(2, "0")`;
  - `formatTime`;
  - the stored `${mm}:${ss}` string and how init parses it back with
    `split(":").map(Number)`.
- `Arc` (`arc.dfy`) covers the clamped fraction of time left, the sweep
  angle, and which path `describeArc` draws: empty, full circle, or a sector
  with its large-arc flag.
- `TimerSpec` (`timer_spec.dfy`) is the state machine as values:
  - a `Session` snapshot of the module variables;
  - one function per event: a tap, an interval firing, a selector change;
  - the invariant every event keeps, and lemmas about runs.
- `TimerMachine` (`timer.dfy`) is the page itself as a class `Timer`:
  - its fields are the module-level variables the handlers update in place;
  - each handler is a method proved to move the snapshot exactly as the
    matching `TimerSpec` function does, and to keep `Valid()`;
  - `Valid()` also covers the fill colour, the saved string, and a balanced
    count of requests to keep the screen awake.

Times in `TimerSpec` and `TimerMachine` are whole tenths of a second. One
interval firing subtracts `Quantum = 1`. `formatTime` and the arc maths take
exact reals, so `ClockText(t)` is `formatTime(t / 10)`.

Behaviour worth noting:

- a tap on a finished timer starts a new run from the selected duration.
- a selector change while running or paused does not reset the run. It only
  changes the total, so the time left can exceed the total
  (`TimerSpec.RemainingCanExceedTotal`). The change itself redraws nothing;
  the next redraw (a firing or a resume) shows the full circle, or no sector
  at all when the new total is 0:00 (`Arc.ArcForTimes`).
- when a run finishes, the circle is drawn with nothing left, so it shows
  "0:00" and no sector (`TimerMachine.FinishedDisplay`).
- the clock text pads only the seconds: 125 s shows "2:05".
- the state colours come from a single table, whatever the dark-mode
  setting.

## Model

| member | source | states |
|---|---|---|
| TimeText.DecimalValue | timer.js:113 | Number() on a digit string (no ensures of its own); DecimalRoundTrip, LeadingZero and PadStart2Value state its properties |
| TimeText.DecimalString | timer.js:138 | the decimal text of a number is a non-empty digit string without a leading zero, one digit exactly for values below 10 |
| TimeText.DecimalRoundTrip | timer.js:138 | reading the decimal text of a number back with Number() gives the number |
| TimeText.PadStart2 | timer.js:207 | padStart(2, "0") (no ensures of its own); PadStart2Value states its value, digits and length |
| TimeText.PadStart2Value | timer.js:207 | padStart(2, "0") keeps a digit string's value, leaves one of length two or more alone, and otherwise gives exactly two digits |
| TimeText.ColonIndexPast | timer.js:113 | split(":") ends its first piece after a colon-free prefix, exactly at the colon that follows it |
| TimeText.EncodeStored | timer.js:138 | the saved string `${mm}:${ss}` (no ensures of its own); StoredRoundTrip and TimerMachine.SavedDurationRestores state that it reads back |
| TimeText.ParseStored | timer.js:113 | `split(":").map(Number)` destructured into [mm, ss], None for a string without a colon or with a non-digit piece (no ensures of its own); StoredRoundTrip and FormatTimeReadsBack state what it reads back |
| TimeText.StoredRoundTrip | timer.js:113 | the string `${mm}:${ss}` saved by a selector change parses back as (mm, ss) |
| TimeText.JsRem | timer.js:206 | JavaScript's truncating `%` (no ensures of its own); FieldsSplitWholeSeconds states the remainder by 60 of a non-negative reading is below 60 |
| TimeText.MinutesField | timer.js:204-205 | Math.floor(seconds / 60) after the clamp at 0 (no ensures of its own); FieldsSplitWholeSeconds states it |
| TimeText.SecondsField | timer.js:204-206 | Math.floor(seconds % 60) after the clamp at 0 (no ensures of its own); FieldsSplitWholeSeconds states it |
| TimeText.FormatTime | timer.js:203-208 | formatTime (no ensures of its own); FormatFloor, FormatWholeSeconds, FormatTimeReadsBack and FormatTimeExamples state its text |
| TimeText.FieldsSplitWholeSeconds | timer.js:203-206 | the minutes and seconds fields of formatTime split the whole seconds (negative readings count as 0): seconds < 60 and minutes*60 + seconds = floor(reading) |
| TimeText.FormatWholeSeconds | timer.js:203-208 | a whole number of seconds mm*60+ss with ss < 60 is shown as mm, a colon, and ss padded to two digits |
| TimeText.FormatFloor | timer.js:204-207 | the clock text of any reading equals the text of its whole seconds (0 for a negative reading), so with FormatWholeSeconds every reading is shown as unpadded minutes, a colon and two-digit seconds |
| TimeText.FormatTimeReadsBack | timer.js:203-208 | the clock text has its colon third from the end, and reading it back gives seconds below 60 and minutes*60 + seconds equal to the whole seconds of the reading |
| TimeText.FormatTimeExamples | timer.js:203-208 | 125 s shows "2:05", 0 s and -5 s show "0:00", 1200 s shows "20:00" |
| Arc.FractionLeft | timer.js:194-196 | the fraction of time left always lies in [0, 1] |
| Arc.FractionClamp | timer.js:194-196 | the fraction is 0 for a zero total or nothing left, the exact share remaining/total when 0 <= remaining <= total, and 1 when remaining is at least the total |
| Arc.Angle | timer.js:198 | the sweep angle lies in [0, 360] degrees |
| Arc.DescribeArc | timer.js:210-236 | each result is chosen exactly when its condition holds: empty for angle <= 0, full circle for angle >= 360, large-arc sector for 180 < angle < 360, small sector for 0 < angle <= 180 |
| Arc.DescribeArcDistinguishes | timer.js:210-236 | 360 gives the full circle, 0 gives the empty path, 180 a small sector, 180.5 a large one, and the full circle differs from the half sector |
| Arc.ArcFor | timer.js:193-199 | the path drawn for a remaining time against the total (no ensures of its own); ArcForTimes states it in terms of the times |
| Arc.ArcForTimes | timer.js:193-199 | in terms of the times: empty when nothing is left or the total is zero, full circle when at least the total is left, otherwise a sector whose large-arc flag is set exactly when more than half the total is left |
| TimerSpec.StateColor | timer.js:48-53 | every state's fill is a seven-character "#RRGGBB" colour: a '#' followed by six upper-case hexadecimal digits |
| TimerSpec.ColorsDistinct | timer.js:48-53 | two states share a fill colour exactly when they are the same state |
| TimerSpec.Initial | timer.js:122-125 | the session init leaves (no ensures of its own); InitialIdle states it |
| TimerSpec.InitialIdle | timer.js:122-125 | after init the timer is idle, not ticking, with time left = total = the selected duration, and the invariant holds |
| TimerSpec.FromDropdown | timer.js:134-143 | updateTimerFromDropdown on the snapshot (no ensures of its own); ChangeDuringRun, ChangeWhenStopped and ChangeKeepsInv state it |
| TimerSpec.ChangeMinutes | timer.js:254 | the minutes change event (no ensures of its own); ChangeDuringRun, ChangeWhenStopped and ChangeKeepsInv state it |
| TimerSpec.ChangeSeconds | timer.js:255 | the seconds change event (no ensures of its own); ChangeDuringRun, ChangeWhenStopped and ChangeKeepsInv state it |
| TimerSpec.Tap | timer.js:145-174 | onCircleTap with startTimer, pauseTimer and resumeTimer on the snapshot (no ensures of its own); TapTransitions, PauseResume and TapKeepsInv state it |
| TimerSpec.Tick | timer.js:178-189 | one firing of the interval on the snapshot (no ensures of its own); TickStep, TickKeepsInv and RunToFinish state it |
| TimerSpec.TapKeepsInv | timer.js:145-159 | a tap keeps the invariant: ticking and screen-awake exactly when running, total = selected duration, time left >= 0, idle means time left = total |
| TimerSpec.TickKeepsInv | timer.js:178-189 | an interval firing keeps the invariant |
| TimerSpec.ChangeKeepsInv | timer.js:134-143 | a change of either selector keeps the invariant |
| TimerSpec.TapTransitions | timer.js:145-174 | idle and finished go to running with the time left reset to the selected duration; running goes to paused and paused to running, keeping time left and total; the selectors never change |
| TimerSpec.PauseResume | timer.js:150-158 | pausing a run and resuming it gives back exactly the same running timer |
| TimerSpec.TickStep | timer.js:178-187 | a firing never raises the time left; it either keeps running with exactly 0.1 s less, still positive, or finishes at exactly 0, and it finishes exactly when at most 0.1 s was left |
| TimerSpec.ChangeDuringRun | timer.js:134-143 | while running or paused, a change of the minutes or of the seconds selector keeps state, time left, interval and screen-awake, and only the total follows the selectors |
| TimerSpec.ChangeWhenStopped | timer.js:134-143 | while idle or finished, a change of the minutes or of the seconds selector keeps the state and resets time left to the new total |
| TimerSpec.RemainingCanExceedTotal | timer.js:140-142 | lowering the minutes during a 20-minute run gives a state that keeps the invariant with time left greater than total |
| TimerSpec.RunToFinish | timer.js:176-189 | a run with r tenths left keeps running with one tenth less per firing for max(r,1)-1 firings, then finishes at 0 with the interval cleared and stays finished |
| TimerSpec.ThreeTenths | timer.js:178-186 | a run with 0.3 s left is still running after two firings and finished at 0 after the third |
| TimerMachine.ClockText | timer.js:200 | the text drawn for a time left in tenths (no ensures of its own); FinishedDisplay and DurationText state it, and FormatFloor with FormatTimeReadsBack cover every reading |
| TimerMachine.SectorFor | timer.js:193-199 | the path drawn for a time left against the total, both in tenths (no ensures of its own); FinishedDisplay, DurationSector and Arc.ArcForTimes state it |
| TimerMachine.Restored | timer.js:111-120 | with nothing stored the selectors become 20:00; otherwise they get the two numbers parsed from the stored string, both below 60 |
| TimerMachine.SavedDurationRestores | timer.js:111-115 | what a selector change saves (line 138) is restorable, and the next init restores exactly those minutes and seconds |
| TimerMachine.FinishedDisplay | timer.js:180-184 | a finished timer shows "0:00" and no sector, whatever the total |
| TimerMachine.DurationText | timer.js:124-125 | a timer showing its whole selected duration shows the selected minutes, a colon and the seconds padded to two digits |
| TimerMachine.DurationSector | timer.js:124-125 | a timer showing its whole selected duration shows the full circle, or nothing when the duration is zero |
| TimerMachine.Timer.constructor | timer.js:61-64 | before init: idle, no time, no interval, the screen never asked to stay awake |
| TimerMachine.Timer.Init | timer.js:102-126 | init leaves the timer valid and in the state TimerSpec.Initial of the restored selectors, with the circle drawing the whole duration |
| TimerMachine.Timer.SetTimerState | timer.js:128-132 | the state is set and the sector gets that state's colour |
| TimerMachine.Timer.UpdateTimerFromDropdown | timer.js:134-143 | total = selected duration, the saved string is `${mm}:${ss}`, and the time left is reset only when idle or finished |
| TimerMachine.Timer.ChangeMinutes | timer.js:254 | the minutes change listener keeps Valid() and moves the snapshot as TimerSpec.ChangeMinutes |
| TimerMachine.Timer.ChangeSeconds | timer.js:255 | the seconds change listener keeps Valid() and moves the snapshot as TimerSpec.ChangeSeconds |
| TimerMachine.Timer.OnCircleTap | timer.js:145-159 | keeps Valid() and moves the snapshot as TimerSpec.Tap; leaving running releases the screen once, entering running requests it once and redraws the whole time left |
| TimerMachine.Timer.StartTimer | timer.js:161-166 | a new run: interval live, total and time left = selected duration, duration saved, circle redrawn |
| TimerMachine.Timer.PauseTimer | timer.js:168-170 | the interval is cleared |
| TimerMachine.Timer.ResumeTimer | timer.js:172-174 | the interval is live again and the circle shows the time left |
| TimerMachine.Timer.RunInterval | timer.js:176-178 | draws the time left, then the interval is live |
| TimerMachine.Timer.Tick | timer.js:178-189 | keeps Valid() and moves the snapshot as TimerSpec.Tick; the circle shows the new time left; the screen is released exactly when the run finishes |
| TimerMachine.Timer.UpdateTimerTextAndArc | timer.js:193-201 | the circle shows the given time against the current total |
| TimerMachine.Timer.EnableScreenAwake | timer.js:6-22 | the screen is asked to stay awake, counted once |
| TimerMachine.Timer.DisableScreenAwake | timer.js:24-38 | the request to keep the screen awake is released, counted once |

## Left out

- Wake Lock and NoSleep. Whether the request succeeds, the fallback between the two, and the async behaviour are outside the model. Each call is one ghost flag plus a counter.
- The DOM. The circle keeps the arguments of the last updateTimerTextAndArc call. The displayed text and sector are functions of them: `ShownText`, `ShownArc`.
- The SVG path text. The endpoint uses sin and cos, so the model keeps only which branch describeArc takes and the large-arc flag. The sweep flag is always 1.
- The state icons. They are all empty strings.
- The timer arithmetic. The timer counts in exact tenths. The source subtracts the floating-point 0.1 from a number of seconds, and rounding drift is not modelled.
- Timing. setInterval's 100 ms period and missed or late firings are not modelled. A firing is one call of `Timer.Tick`.
- Storage. localStorage is one string field plus the argument of `Timer.Init`. The dark-mode preference and both dark-mode listeners (timer.js:78-86, 104-108, 244-248) are not modelled.
- The refresh button (location.reload) is not modelled.
- The selector options. Building the options 0..59 (timer.js:89-99) is a precondition: selector values stay below 60.
- TimerMachine.Timer.Init: requires the stored string to be empty or to parse as two numbers below 60. In the source, other strings fall in two kinds. Some select no option, and the duration becomes NaN. Others write a whole number below 60 in an unusual notation that Number() accepts (" 5:7", "+5:7", "5.0:7", "0x5:7", "-0:7"); these select existing options and restore normally. The model excludes both kinds.
- TimerMachine.Restored: has the same requires as TimerMachine.Timer.Init, for the same reason: it restores only an empty store or two plain digit pieces below 60.
- TimeText.ParseStored: accepts only digit pieces, where an empty piece reads as 0. Other texts Number() accepts (spaces, signs, exponents, hexadecimal) are treated as malformed.
