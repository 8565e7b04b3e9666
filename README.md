# Pomodoro timer core, modelled in Dafny

This project models the parts of the Pomodoro web app that hold real logic:

- **the background countdown worker** (`public/timer-worker.js`): a script with three module-level
  variables and three commands (`start`, `pause`, `reset`). While its 500 ms interval is live, each
  firing posts `tick(remaining)`, and once the target time is reached it also posts one `complete`
  and clears the interval;
- **the timer controller** (`utils/timer-utils.ts`): the `TimerUtils` singleton. It holds one
  `(onTick, onComplete)` callback pair and forwards `start`/`pause`/`reset` to the worker when one
  exists. It dispatches the worker's messages to the callbacks. Without a worker it runs an in-page
  fallback interval with the same remaining-time formula;
- **the countdown component** (`components/pomodoro-timer.tsx`): its own one-second interval with
  the `setTime` step reducer, the start/pause/reset handlers, `formatTime` ("MM:SS") and the
  session record that `saveSession` writes, with the completed-pomodoro count;
- **the sound helper** (`utils/sound-utils.ts`): the `enabled` flag, its stored form under
  `"pomodoroSoundEnabled"`, toggling, and `play` gated by the flag.

The component does not use the worker or the controller: it counts down with its own interval, so
it is modelled as a separate state machine. The code has no work / short-break / long-break cycle
(only the static info text describes one), so none is modelled.

Files: `wrappers.dfy` (an `Option` type), `timer_worker.dfy` (module `TimerWorker`),
`timer_utils.dfy` (module `Timers`), `pomodoro_timer.dfy` (module `Pomodoro`),
`sound_utils.dfy` (module `Sounds`).

How the environment is represented:

- The wall clock is an explicit integer `now` in milliseconds. Each firing of an interval is an
  explicit method call (`Worker.Fire`, `TimerUtils.FireFallback`, `PomodoroTimer.Second`).
- The scheduler's live intervals are fields: `Worker.live` and `TimerUtils.fallbacks`.
- `postMessage` to the worker appends the command to `TimerUtils.posted`. A message from the worker
  is delivered by `TimerUtils.OnWorkerMessage`.
- Callbacks are opaque ids, and calling one appends to `TimerUtils.invoked`.
- The static `instance` fields are objects of their own (`TimerUtilsSlot`, `SoundUtilsSlot`).
- `localStorage` is the one optional string `SoundUtils.stored`. Audio playback is the log
  `SoundUtils.played`.
- Firestore's `addDoc` is the `sessions` log, and its success is the `stored` parameter. The stored
  count from `getDocs` is the `storedCount` parameter, `None` when the query fails.
- `Date.now()` / `Timestamp.now()` are the `now` parameters. Whether a worker could be created and
  whether `window` exists are constructor parameters.

Behaviour one might expect of a Pomodoro timer but that the code does not have is not modelled:

- A superseded countdown is not cancelled in the fallback path. `pauseTimer`/`resetTimer` do nothing
  without a worker, and an older fallback loop keeps firing into the newest callbacks.
- Pausing and resetting the worker clear the interval but do not resume anything.
- No phase cycle, auto-start or skip exists.

## Model

| member | source | states |
|---|---|---|
| TimerWorker.Remaining | public/timer-worker.js:22-23 | the tick value is the floor of the whole seconds left: r*1000 <= target-now < r*1000+1000 when the target is ahead, never negative, and 0 from the target on |
| TimerWorker.RemainingMonotone | public/timer-worker.js:22-23 | a later firing never shows more seconds than an earlier one |
| TimerWorker.RemainingWithinDuration | public/timer-worker.js:12-13 | once started, a countdown of d seconds shows at most d (0 for d <= 0) |
| TimerWorker.Firing | public/timer-worker.js:21-34 | one firing posts one tick with Remaining, followed by `complete` exactly when now >= target, and then the tick is 0 |
| TimerWorker.NonPositiveDurationCompletesAtOnce | public/timer-worker.js:12-13 | with duration <= 0 the first firing at or after the start posts tick 0 then complete |
| TimerWorker.Run | public/timer-worker.js:21-34 | the messages of successive firings of one interval, stopping at the firing that completes: at most one more message than firings, none without a firing, and the first is the tick of the first firing |
| TimerWorker.RunTicksNonIncreasing | public/timer-worker.js:21-34 | across a countdown fired at non-decreasing instants, tick values never increase |
| TimerWorker.RunCompletesOnceAtEnd | public/timer-worker.js:28-33 | `complete` appears at most once per start, only as the last message, right after a tick of 0, and only if some firing was at or past the target |
| TimerWorker.RunReachingTargetCompletes | public/timer-worker.js:28-33 | a countdown fired at or past its target ends with `complete` |
| TimerWorker.Worker.constructor | public/timer-worker.js:3-5 | the worker starts with no interval and null start and target times |
| TimerWorker.Worker.Start | public/timer-worker.js:10-21 | start records startTime = now and targetTime = now + d*1000, clears the previous interval, and leaves exactly one live interval |
| TimerWorker.Worker.Pause | public/timer-worker.js:35-40 | pause clears the interval and keeps startTime and targetTime |
| TimerWorker.Worker.Reset | public/timer-worker.js:41-49 | reset clears the interval and nulls startTime and targetTime; the resulting state does not depend on the prior one, so reset is idempotent |
| TimerWorker.Worker.HandleMessage | public/timer-worker.js:7-50 | onmessage dispatches start/pause/reset; any other command changes nothing |
| TimerWorker.Worker.Fire | public/timer-worker.js:21-34 | a live interval posts Firing(target, now) and clears itself once now >= target; with no live interval (after pause, reset or completion) nothing is posted |
| TimerWorker.StartAndRun | public/timer-worker.js:10-34 | a started worker fired at a sequence of instants posts exactly Run of its target, so the Run lemmas hold of the worker itself |
| Timers.Encode | public/timer-worker.js:26-30 | the worker's messages on the wire: `{type: "tick", remaining}` and `{type: "complete"}` |
| Timers.Dispatch | utils/timer-utils.ts:17-25 | a tick message calls onTick(remaining) iff onTick is registered; a complete message calls onComplete() iff it is registered; anything else calls nothing |
| Timers.DispatchAll | utils/timer-utils.ts:17-25 | handling a sequence of worker messages in order makes at most one call per message, exactly one when both callbacks are registered, and none when no callback is registered |
| Timers.DispatchAllAppend | utils/timer-utils.ts:17-25 | messages are handled one after another: the calls made for `a + b` are those for `a` followed by those for `b` |
| Timers.FallbackFiring | utils/timer-utils.ts:70-85 | a fallback firing calls onTick(Remaining) first if registered, then onComplete() only when now >= target and it is registered |
| Timers.FallbackAgreesWithWorker | utils/timer-utils.ts:66-86 | the fallback loop makes exactly the callback calls that the worker path makes for the same target, instant and callbacks |
| Timers.TimerUtils.constructor | utils/timer-utils.ts:10-30 | a fresh controller has no callbacks, nothing posted, no fallback loops, and a worker iff one could be created |
| Timers.TimerUtils.StartTimer | utils/timer-utils.ts:39-52 | both callbacks are overwritten (an omitted one is unregistered); with a worker exactly one start(duration) is posted; otherwise one new fallback loop is added and none is removed |
| Timers.TimerUtils.PauseTimer | utils/timer-utils.ts:54-58 | posts pause only when a worker exists; fallback loops and callbacks are untouched |
| Timers.TimerUtils.ResetTimer | utils/timer-utils.ts:60-64 | posts reset only when a worker exists; fallback loops and callbacks are untouched |
| Timers.TimerUtils.OnWorkerMessage | utils/timer-utils.ts:17-25 | a worker message appends Dispatch of the currently registered callbacks to the call log |
| Timers.TimerUtils.FireFallback | utils/timer-utils.ts:70-85 | a live fallback loop calls the callbacks registered at firing time and removes itself only when it completes |
| Timers.SupersededFallbackStillFires | utils/timer-utils.ts:39-86 | without a worker, two startTimer calls followed by pauseTimer and resetTimer still leave both loops firing into the newest callbacks, so onComplete runs twice |
| Timers.TimerUtilsSlot.GetInstance | utils/timer-utils.ts:32-37 | the first call creates the controller; every later call returns the same object |
| Pomodoro.StepStaysInRange | components/pomodoro-timer.tsx:72-80 | a step from a time in 1..1500 stays in 1..1500 and finishes exactly when the time was 1 |
| Pomodoro.Step | components/pomodoro-timer.tsx:72-80 | the reducer finishes exactly when prev <= 1; the new time is never below 1, is either smaller than prev or back at 1500, and stays at most 1500 from any prev up to 1501 |
| Pomodoro.Countdown | components/pomodoro-timer.tsx:72-80 | n successive steps finish at most n times, leave a time of at least 1, and keep a time in 1..1500 within 1..1500 |
| Pomodoro.CountdownBeforeEnd | components/pomodoro-timer.tsx:72-80 | fewer steps than the displayed time count down one per step with no completion |
| Pomodoro.FullPomodoro | components/pomodoro-timer.tsx:72-79 | from the initial 1500 (line 19), no step before the 1500th finishes, and exactly 1500 steps finish once and restore 1500 |
| Pomodoro.DecimalStringCorrect | components/pomodoro-timer.tsx:96-96 | `toString()` writes n in decimal digits whose value is n, with 1, 2 or at least 3 digits by magnitude |
| Pomodoro.DecimalString | components/pomodoro-timer.tsx:96-96 | `toString()` of a natural number is a non-empty string of decimal digits with no leading zero |
| Pomodoro.PadStart2 | components/pomodoro-timer.tsx:96-96 | `padStart(2, "0")` keeps the string as its suffix and adds only '0's, at most one, so the result has length exactly max(2, length) |
| Pomodoro.TwoDigits | components/pomodoro-timer.tsx:96-96 | `padStart(2, "0")` of a number below 100 is two digits with the same value |
| Pomodoro.FormatTime | components/pomodoro-timer.tsx:93-97 | for every time the display ends in ':' followed by two decimal digits reading s mod 60 (< 60), and is at least 5 characters long |
| Pomodoro.FormatTimeFields | components/pomodoro-timer.tsx:93-97 | below 6000 s the display is 5 characters "MM:SS" with MM = s div 60 and SS = s mod 60 < 60 |
| Pomodoro.FormatTimeLong | components/pomodoro-timer.tsx:93-97 | from 6000 s on, the display is longer than 5 characters |
| Pomodoro.FormatTimeRoundTrip | components/pomodoro-timer.tsx:93-97 | reading an "MM:SS" display back gives the seconds it was made from |
| Pomodoro.FormatFullTime | components/pomodoro-timer.tsx:93-97 | 1500 s is shown as "25:00" |
| Pomodoro.TaskLabel | components/pomodoro-timer.tsx:46-46 | an empty task name becomes "Unnamed Task"; any other name is kept; the label is never empty |
| Pomodoro.Record | components/pomodoro-timer.tsx:44-49 | a saved record carries the user's id, the task label, duration 25 and the completion time |
| Pomodoro.PomodoroTimer.constructor | components/pomodoro-timer.tsx:19-21 | the component starts at 1500 s, inactive, with an empty task name |
| Pomodoro.PomodoroTimer.LoadCompleted | components/pomodoro-timer.tsx:25-39 | the count becomes the stored session count only when db and user are present and the query succeeds; a failed query changes nothing |
| Pomodoro.PomodoroTimer.SetTaskName | components/pomodoro-timer.tsx:121-128 | the task name changes only while the countdown is not active |
| Pomodoro.PomodoroTimer.HandleStart | components/pomodoro-timer.tsx:99-101 | start sets the countdown active and leaves the time unchanged |
| Pomodoro.PomodoroTimer.HandlePause | components/pomodoro-timer.tsx:103-105 | pause sets the countdown inactive and leaves the time unchanged |
| Pomodoro.PomodoroTimer.HandleReset | components/pomodoro-timer.tsx:107-110 | reset sets inactive and 1500 whatever the prior state, so it is idempotent |
| Pomodoro.PomodoroTimer.SaveSession | components/pomodoro-timer.tsx:41-67 | with db and user present and a successful write, one record is added and the count becomes the previous count + 1; otherwise nothing changes |
| Pomodoro.PomodoroTimer.Second | components/pomodoro-timer.tsx:69-91 | one tick of the one-second interval applies the step reducer while active; the finishing step stops the countdown and saves exactly one session and raises the count by one when db, user and the write succeed, and otherwise adds nothing and keeps the count; the invariant keeps the time in 1..1500 |
| Sounds.DecodePreference | utils/sound-utils.ts:16-19 | an absent entry reads as enabled, "true" reads as enabled, and any other string as disabled |
| Sounds.EncodePreference | utils/sound-utils.ts:56-56 | the flag is stored as "true" or "false" |
| Sounds.PreferenceRoundTrip | utils/sound-utils.ts:16-19 | decoding the stored form of a flag gives the flag back |
| Sounds.PreferenceCanonical | utils/sound-utils.ts:53-58 | re-storing a decoded entry reproduces the entry exactly when it was "true" or "false" |
| Sounds.SoundUtils.constructor | utils/sound-utils.ts:7-25 | the three sounds get their files and volume 0.7; in a browser the flag is decoded from storage, else (given an `Audio` constructor) it stays true |
| Sounds.SoundUtils.Play | utils/sound-utils.ts:34-47 | when disabled nothing changes; when enabled only the named sound is rewound to 0 and played |
| Sounds.SoundUtils.IsEnabled | utils/sound-utils.ts:49-51 | returns the flag, which in a browser agrees with the stored entry (under the storage assumption in "Left out"), and changes nothing |
| Sounds.SoundUtils.SetEnabled | utils/sound-utils.ts:53-58 | sets the flag and, in a browser, stores "true"/"false" under pomodoroSoundEnabled |
| Sounds.SoundUtils.ToggleEnabled | utils/sound-utils.ts:60-63 | negates the flag, stores it, and returns the new value |
| Sounds.ToggleTwice | utils/sound-utils.ts:60-63 | two toggles restore the flag and the decoded stored preference; the raw entry returns only if it was already "true" or "false"; without a window nothing is stored; the sounds and the played log are untouched |
| Sounds.SoundUtilsSlot.GetInstance | utils/sound-utils.ts:27-32 | the first call constructs the helper; every later call returns the same object |

## Left out

- Sounds.SoundUtils.SetEnabled (and Sounds.SoundUtils.IsEnabled): `localStorage` is taken to be written only by this helper and never to throw; a `setItem` that throws after `this.enabled` was set, or another tab sharing the same storage, can leave the flag and the stored entry disagreeing, which the invariant does not allow.
- Real time, `setInterval` scheduling and `postMessage` asynchrony: firings and message deliveries are explicit calls, and the clock is a parameter.
- The delay between `postMessage` and the worker's `onmessage`: the controller's posted commands are a log. The worker's behaviour for each command is modelled on its own.
- Fractional durations and times: durations are integer seconds and times integer milliseconds. A non-numeric or missing `duration` is not modelled.
- Pomodoro.FormatTime: takes a natural number; JavaScript's output for negative or fractional seconds is not modelled, and the component only passes times in 1..1500.
- Pomodoro.DecimalString: always writes plain decimal digits, while JavaScript's `toString` switches to exponent form from 1e21 on; the component's times are far below that.
- Sounds.SoundUtils.constructor: the branch without a `window` assumes an `Audio` constructor exists; in a runtime without one, `new Audio(...)` throws before the guard and `getInstance` returns no helper, which is not modelled.
- React rendering, effects scheduling and stale closures: `saveSession` is taken to see the current task name and count. A count loaded after the countdown started, and React's strict-mode double invocation of the `setTime` updater, are not modelled.
- The `Notification` API in `saveSession` and the error logging (`console.error`, `console.warn`): side effects with no state in the model.
- The `HTMLAudioElement.play()` promise and its rejection: playing is an entry in the `played` log.
- Firestore and Firebase Auth: the `db` and `user` props are flags and an optional uid, and `addDoc`'s outcome is a boolean parameter.
- The sign-in form, the app shell, the session history list and the static info text: UI and foreign library calls with no logic of this core.
