/**
 * The countdown component (components/pomodoro-timer.tsx).
 *
 * The component runs its own one-second interval while `isActive` holds and
 * does not use the worker or the controller.  Each firing applies the step
 * reducer to `time`; the step that reaches the end restores 25 minutes,
 * stops the countdown and saves a session record for the signed-in user.
 */
module Pomodoro {
  import opened Wrappers

  /** `25 * 60`: the length of one pomodoro, in seconds. */
  const FullTime: int := 1500

  /** The duration written into every saved record, in minutes. */
  const SessionMinutes: nat := 25

  const UnnamedTask: string := "Unnamed Task"

  // ---------------------------------------------------------------------
  // The per-second step reducer passed to `setTime`
  // ---------------------------------------------------------------------

  /** The new `time`, and whether this step ended the pomodoro. */
  datatype StepOutcome = StepOutcome(time: int, finished: bool)

  /**
   * `prev <= 1` finishes and restores `25 * 60`; otherwise one second passes.
   * The new time is never below 1, so 0 is never displayed.
   */
  function Step(prev: int): (o: StepOutcome)
    ensures o.finished <==> prev <= 1
    ensures o.time >= 1
    ensures o.time < prev || o.time == FullTime
    ensures prev <= FullTime + 1 ==> o.time <= FullTime
  {
    if prev <= 1 then StepOutcome(FullTime, true) else StepOutcome(prev - 1, false)
  }

  /** A step keeps the displayed time within 1 .. 1500; it never shows 0. */
  lemma StepStaysInRange(prev: int)
    requires 1 <= prev <= FullTime
    ensures 1 <= Step(prev).time <= FullTime
    ensures Step(prev).finished <==> prev == 1
  {
  }

  /** The time after `n` steps from `time`, and how many of them finished a pomodoro. */
  function Countdown(time: int, n: nat): (r: (int, nat))
    ensures r.1 <= n
    ensures n > 0 ==> r.0 >= 1
    ensures 1 <= time <= FullTime ==> 1 <= r.0 <= FullTime
    decreases n
  {
    if n == 0 then (time, 0)
    else
      var (t, finished) := Countdown(time, n - 1);
      var o := Step(t);
      (o.time, finished + if o.finished then 1 else 0)
  }

  /** Fewer steps than the time shown just count down, and nothing finishes. */
  lemma {:induction false} CountdownBeforeEnd(time: int, n: nat)
    requires n < time
    ensures Countdown(time, n) == (time - n, 0)
    decreases n
  {
    if n > 0 {
      CountdownBeforeEnd(time, n - 1);
    }
  }

  /**
   * From a fresh 25 minutes, no step before the 1500th finishes, and exactly
   * 1500 steps finish one pomodoro and show 25 minutes again.
   */
  lemma {:induction false} FullPomodoro(n: nat)
    requires n <= FullTime
    ensures Countdown(FullTime, n).1 == (if n == FullTime then 1 else 0)
    ensures Countdown(FullTime, n).0 == (if n == FullTime then FullTime else FullTime - n)
  {
    if n < FullTime {
      CountdownBeforeEnd(FullTime, n);
    } else {
      CountdownBeforeEnd(FullTime, n - 1);
    }
  }

  // ---------------------------------------------------------------------
  // formatTime: "MM:SS"
  // ---------------------------------------------------------------------

  predicate IsDigit(c: char)
  {
    '0' <= c <= '9'
  }

  function DigitValue(c: char): int
  {
    c as int - '0' as int
  }

  function Digit(d: nat): (c: char)
    requires d < 10
    ensures IsDigit(c) && DigitValue(c) == d
  {
    "0123456789"[d]
  }

  ghost predicate AllDigits(s: string)
  {
    forall i :: 0 <= i < |s| ==> IsDigit(s[i])
  }

  /** The number written by the decimal digits `s` (most significant first). */
  function DecimalValue(s: string): int
    decreases |s|
  {
    if s == [] then 0 else DecimalValue(s[..|s| - 1]) * 10 + DigitValue(s[|s| - 1])
  }

  /** `n.toString()` for a natural number. */
  function DecimalString(n: nat): (s: string)
    ensures |s| >= 1 && AllDigits(s)
    ensures s[0] == '0' ==> n == 0
    decreases n
  {
    if n < 10 then [Digit(n)] else DecimalString(n / 10) + [Digit(n % 10)]
  }

  /** `n.toString()` writes `n` in at least one decimal digit, with as many digits as `n` needs. */
  lemma {:induction false} DecimalStringCorrect(n: nat)
    ensures AllDigits(DecimalString(n)) && DecimalValue(DecimalString(n)) == n
    ensures n < 10 ==> |DecimalString(n)| == 1
    ensures 10 <= n < 100 ==> |DecimalString(n)| == 2
    ensures n >= 100 ==> |DecimalString(n)| >= 3
    decreases n
  {
    var s := DecimalString(n);
    if n >= 10 {
      DecimalStringCorrect(n / 10);
      assert s[..|s| - 1] == DecimalString(n / 10);
    }
  }

  /** `s.padStart(2, "0")` for a non-empty string. */
  function PadStart2(s: string): (r: string)
    requires |s| >= 1
    ensures |r| == if |s| < 2 then 2 else |s|
    ensures r[|r| - |s|..] == s
    ensures |r| > |s| ==> r[0] == '0'
  {
    if |s| < 2 then ['0'] + s else s
  }

  lemma PadStart2KeepsValue(s: string)
    requires |s| == 1 && AllDigits(s)
    ensures PadStart2(s) == ['0', s[0]] && DecimalValue(PadStart2(s)) == DecimalValue(s)
  {
  }

  /** Two decimal digits for every `n < 100`. */
  lemma TwoDigits(n: nat)
    requires n < 100
    ensures |PadStart2(DecimalString(n))| == 2
    ensures AllDigits(PadStart2(DecimalString(n)))
    ensures DecimalValue(PadStart2(DecimalString(n))) == n
  {
    DecimalStringCorrect(n);
    if n < 10 {
      PadStart2KeepsValue(DecimalString(n));
    }
  }

  /** `formatTime`: minutes and seconds, each padded to two digits, joined by ':'. */
  function FormatTime(seconds: nat): (r: string)
    ensures |r| >= 5 && r[|r| - 3] == ':'
    ensures AllDigits(r[|r| - 2..]) && DecimalValue(r[|r| - 2..]) == seconds % 60 < 60
  {
    var minutes := PadStart2(DecimalString(seconds / 60));
    var secs := PadStart2(DecimalString(seconds % 60));
    TwoDigits(seconds % 60);
    var r := minutes + ":" + secs;
    assert r[|r| - 2..] == secs && r[|r| - 3] == ':';
    r
  }

  /**
   * Below 100 minutes the display is five characters "MM:SS" whose fields
   * are the whole minutes and the remaining seconds (under 60).
   */
  lemma FormatTimeFields(seconds: nat)
    requires seconds < 6000
    ensures |FormatTime(seconds)| == 5 && FormatTime(seconds)[2] == ':'
    ensures AllDigits(FormatTime(seconds)[..2]) && AllDigits(FormatTime(seconds)[3..])
    ensures DecimalValue(FormatTime(seconds)[..2]) == seconds / 60
    ensures DecimalValue(FormatTime(seconds)[3..]) == seconds % 60 < 60
  {
    var mm, ss := PadStart2(DecimalString(seconds / 60)), PadStart2(DecimalString(seconds % 60));
    TwoDigits(seconds / 60);
    TwoDigits(seconds % 60);
    var r := FormatTime(seconds);
    assert r == mm + ":" + ss;
    assert r[..2] == mm && r[3..] == ss;
  }

  /** From 100 minutes on, the minutes field grows past two digits. */
  lemma FormatTimeLong(seconds: nat)
    requires seconds >= 6000
    ensures |FormatTime(seconds)| > 5
  {
    DecimalStringCorrect(seconds / 60);
    DecimalStringCorrect(seconds % 60);
  }

  /** Reads back an "MM:SS" display as a number of seconds. */
  function ParseClock(s: string): Option<int>
  {
    if |s| == 5 && s[2] == ':' && AllDigitsAt(s, [0, 1, 3, 4]) && DecimalValue(s[3..]) < 60
    then Some(DecimalValue(s[..2]) * 60 + DecimalValue(s[3..]))
    else None
  }

  predicate AllDigitsAt(s: string, positions: seq<nat>)
  {
    forall k :: 0 <= k < |positions| ==> positions[k] < |s| && IsDigit(s[positions[k]])
  }

  /** A five-character "MM:SS" with digit fields and seconds under 60 reads as MM * 60 + SS. */
  lemma ParseClockFields(s: string)
    requires |s| == 5 && s[2] == ':' && AllDigits(s[..2]) && AllDigits(s[3..]) && DecimalValue(s[3..]) < 60
    ensures ParseClock(s) == Some(DecimalValue(s[..2]) * 60 + DecimalValue(s[3..]))
  {
    assert IsDigit(s[..2][0]) && IsDigit(s[..2][1]) && IsDigit(s[3..][0]) && IsDigit(s[3..][1]);
    assert AllDigitsAt(s, [0, 1, 3, 4]);
  }

  /** Reading back the display of any time under 100 minutes gives that time. */
  lemma FormatTimeRoundTrip(seconds: nat)
    requires seconds < 6000
    ensures ParseClock(FormatTime(seconds)) == Some(seconds)
  {
    FormatTimeFields(seconds);
    ParseClockFields(FormatTime(seconds));
  }

  /** A full pomodoro is shown as "25:00". */
  lemma FormatFullTime()
    ensures FormatTime(FullTime) == "25:00"
  {
    assert FullTime / 60 == 25 && FullTime % 60 == 0;
    assert DecimalString(2) == "2" && DecimalString(5) == "5";
    assert DecimalString(25) == "25";
    assert PadStart2("25") == "25";
    assert DecimalString(0) == "0";
    assert PadStart2("0") == "00";
    assert "25" + ":" + "00" == "25:00";
  }

  // ---------------------------------------------------------------------
  // Session records
  // ---------------------------------------------------------------------

  /** A document added to the `pomodoro_sessions` collection. */
  datatype SessionRecord = SessionRecord(userId: string, taskName: string, duration: nat, completedAt: int)

  /** `taskName || "Unnamed Task"`: an empty name is replaced, any other is kept. */
  function TaskLabel(taskName: string): (shown: string)
    ensures shown != ""
    ensures taskName != "" ==> shown == taskName
    ensures taskName == "" ==> shown == UnnamedTask
  {
    if taskName == "" then UnnamedTask else taskName
  }

  /** The record `saveSession` writes for `userId` at time `completedAt`. */
  function Record(userId: string, taskName: string, completedAt: int): (r: SessionRecord)
    ensures r.userId == userId && r.duration == SessionMinutes && r.completedAt == completedAt
    ensures r.taskName == TaskLabel(taskName)
  {
    SessionRecord(userId, TaskLabel(taskName), SessionMinutes, completedAt)
  }

  ghost predicate WellFormedRecord(r: SessionRecord, user: Option<string>)
  {
    user == Some(r.userId) && r.taskName != "" && r.duration == SessionMinutes
  }

  /**
   * One mounted component.  `hasDb` and `user` are its `db` and `user`
   * props; `completedPomodoros` is the parent's counter it updates;
   * `sessions` are the documents it has added to the store.
   */
  class PomodoroTimer {
    const hasDb: bool
    const user: Option<string>
    var time: int
    var isActive: bool
    var taskName: string
    var completedPomodoros: nat
    var sessions: seq<SessionRecord>

    /** The displayed time is always within 1 .. 1500, and every saved record is well formed. */
    ghost predicate Valid()
      reads this
    {
      && 1 <= time <= FullTime
      && (forall i :: 0 <= i < |sessions| ==> WellFormedRecord(sessions[i], user))
      && (sessions != [] ==> hasDb && user.Some?)
    }

    /** Mounting: `useState(25 * 60)`, `useState(false)`, `useState("")`. */
    constructor (db: bool, signedIn: Option<string>, completed: nat)
      ensures Valid()
      ensures hasDb == db && user == signedIn
      ensures time == FullTime && !isActive && taskName == ""
      ensures completedPomodoros == completed && sessions == []
    {
      hasDb, user := db, signedIn;
      time, isActive, taskName := FullTime, false, "";
      completedPomodoros, sessions := completed, [];
    }

    /**
     * `loadCompletedPomodoros`: the count of stored sessions, when db and
     * user are present; `storedCount` is `None` when the query fails.
     */
    method LoadCompleted(storedCount: Option<nat>)
      requires Valid()
      modifies this
      ensures Valid()
      ensures completedPomodoros ==
        if hasDb && user.Some? && storedCount.Some? then storedCount.value else old(completedPomodoros)
      ensures time == old(time) && isActive == old(isActive) && taskName == old(taskName)
      ensures sessions == old(sessions)
    {
      if hasDb && user.Some? && storedCount.Some? {
        completedPomodoros := storedCount.value;
      }
    }

    /** Typing into the task field; the field is disabled while the countdown runs. */
    method SetTaskName(name: string)
      requires Valid()
      modifies this
      ensures Valid()
      ensures taskName == if old(isActive) then old(taskName) else name
      ensures time == old(time) && isActive == old(isActive)
      ensures completedPomodoros == old(completedPomodoros) && sessions == old(sessions)
    {
      if !isActive {
        taskName := name;
      }
    }

    /** `handleStart`: only `isActive` changes. */
    method HandleStart()
      requires Valid()
      modifies this
      ensures Valid()
      ensures isActive && time == old(time) && taskName == old(taskName)
      ensures completedPomodoros == old(completedPomodoros) && sessions == old(sessions)
    {
      isActive := true;
    }

    /** `handlePause`: only `isActive` changes. */
    method HandlePause()
      requires Valid()
      modifies this
      ensures Valid()
      ensures !isActive && time == old(time) && taskName == old(taskName)
      ensures completedPomodoros == old(completedPomodoros) && sessions == old(sessions)
    {
      isActive := false;
    }

    /** `handleReset`: inactive with a full 25 minutes, whatever the state was. */
    method HandleReset()
      requires Valid()
      modifies this
      ensures Valid()
      ensures !isActive && time == FullTime && taskName == old(taskName)
      ensures completedPomodoros == old(completedPomodoros) && sessions == old(sessions)
    {
      isActive := false;
      time := FullTime;
    }

    /**
     * `saveSession`: with db and user present, one record is added and the
     * count goes up by one; `stored` is whether `addDoc` succeeded, and a
     * failed write changes nothing.
     */
    method SaveSession(now: int, stored: bool)
      requires Valid()
      modifies this
      ensures Valid()
      ensures if hasDb && user.Some? && stored then
          sessions == old(sessions) + [Record(user.value, taskName, now)] &&
          completedPomodoros == old(completedPomodoros) + 1
        else
          sessions == old(sessions) && completedPomodoros == old(completedPomodoros)
      ensures time == old(time) && isActive == old(isActive) && taskName == old(taskName)
    {
      if hasDb && user.Some? && stored {
        sessions := sessions + [Record(user.value, taskName, now)];
        completedPomodoros := completedPomodoros + 1;
      }
    }

    /**
     * One firing of the one-second interval, which exists only while the
     * countdown is active: the step reducer updates `time`, and the step
     * that finishes stops the countdown and saves exactly one session.
     */
    method Second(now: int, stored: bool)
      requires Valid()
      modifies this
      ensures Valid()
      ensures !old(isActive) ==>
        time == old(time) && !isActive && sessions == old(sessions) &&
        completedPomodoros == old(completedPomodoros)
      ensures old(isActive) ==> time == Step(old(time)).time && isActive == !Step(old(time)).finished
      ensures old(isActive) && !Step(old(time)).finished ==>
        sessions == old(sessions) && completedPomodoros == old(completedPomodoros)
      ensures old(isActive) && Step(old(time)).finished ==>
        if hasDb && user.Some? && stored then
          sessions == old(sessions) + [Record(user.value, taskName, now)] &&
          completedPomodoros == old(completedPomodoros) + 1
        else
          sessions == old(sessions) && completedPomodoros == old(completedPomodoros)
      ensures taskName == old(taskName)
    {
      if isActive {
        var o := Step(time);
        time := o.time;
        if o.finished {
          isActive := false;
          SaveSession(now, stored);
        }
      }
    }
  }
}
