/**
 * The background countdown worker (public/timer-worker.js).
 *
 * The worker keeps three module-level variables (the live interval's id, the
 * start time and the target time) and reacts to three commands.  While an
 * interval is live, each 500 ms firing posts `tick(remaining)` and, once the
 * target is reached, one `complete`, after which the interval is cleared.
 *
 * The wall clock is an explicit integer `now` in milliseconds, and every
 * firing of the interval is an explicit call of `Fire(now)`.
 */
module TimerWorker {
  import opened Wrappers

  /** Commands received by `self.onmessage`. */
  datatype Command = Start(duration: int) | Pause | Reset | Unknown

  /** Messages posted back to the main thread. */
  datatype Event = Tick(remaining: nat) | Complete

  /**
   * Whole seconds left before `target` at time `now`:
   * `Math.max(0, Math.floor((target - now) / 1000))`.
   * Dafny's `/` with a positive divisor is floor division, as `Math.floor` is.
   */
  function Remaining(target: int, now: int): (r: nat)
    ensures target - now >= 0 ==> r * 1000 <= target - now < r * 1000 + 1000
    ensures target - now < 1000 ==> r == 0
    ensures now >= target ==> r == 0
  {
    if target - now <= 0 then 0 else (target - now) / 1000
  }

  /** Seen later, fewer seconds remain. */
  lemma RemainingMonotone(target: int, t1: int, t2: int)
    requires t1 <= t2
    ensures Remaining(target, t2) <= Remaining(target, t1)
  {
  }

  /** A countdown of `duration` seconds never shows more than its duration. */
  lemma RemainingWithinDuration(startTime: int, duration: int, now: int)
    requires now >= startTime
    ensures Remaining(startTime + duration * 1000, now) <= (if duration < 0 then 0 else duration)
  {
  }

  /** What one firing of a live interval posts, for target time `target`. */
  function Firing(target: int, now: int): (events: seq<Event>)
    ensures 1 <= |events| <= 2
    ensures events[0] == Tick(Remaining(target, now))
    ensures |events| == 2 <==> now >= target
    ensures |events| == 2 ==> events == [Tick(0), Complete]
  {
    var tick := Tick(Remaining(target, now));
    if now >= target then [tick, Complete] else [tick]
  }

  /** A non-positive duration completes on the very first firing. */
  lemma NonPositiveDurationCompletesAtOnce(startTime: int, duration: int, now: int)
    requires duration <= 0 && now >= startTime
    ensures Firing(startTime + duration * 1000, now) == [Tick(0), Complete]
  {
  }

  /**
   * Everything posted by the interval created for target time `target` when
   * it fires at the instants `times`, with no command in between: the
   * interval is cleared by the firing that completes it.
   */
  function Run(target: int, times: seq<int>): (events: seq<Event>)
    ensures |events| <= |times| + 1
    ensures times == [] <==> events == []
    ensures times != [] ==> events[0] == Tick(Remaining(target, times[0]))
    decreases |times|
  {
    if times == [] then []
    else if times[0] >= target then Firing(target, times[0])
    else Firing(target, times[0]) + Run(target, times[1..])
  }

  /** One firing, then the rest of the run unless that firing completed it. */
  lemma RunUnfold(target: int, times: seq<int>)
    requires times != []
    ensures Run(target, times) ==
      Firing(target, times[0]) + (if times[0] >= target then [] else Run(target, times[1..]))
  {
  }

  ghost predicate NonDecreasing(times: seq<int>)
  {
    forall i, j :: 0 <= i < j < |times| ==> times[i] <= times[j]
  }

  ghost predicate TicksNonIncreasing(events: seq<Event>)
  {
    forall i, j :: 0 <= i < j < |events| && events[i].Tick? && events[j].Tick? ==>
      events[j].remaining <= events[i].remaining
  }

  /** Every tick of a run is at most `bound` when every firing time's remaining is. */
  lemma {:induction false} RunTicksBounded(target: int, times: seq<int>, bound: nat)
    requires forall k :: 0 <= k < |times| ==> Remaining(target, times[k]) <= bound
    ensures forall i :: 0 <= i < |Run(target, times)| && Run(target, times)[i].Tick? ==>
      Run(target, times)[i].remaining <= bound
    decreases |times|
  {
    if times != [] && times[0] < target {
      RunTicksBounded(target, times[1..], bound);
    }
  }

  /** For non-decreasing firing times, the ticks of a run never go up. */
  lemma {:induction false} RunTicksNonIncreasing(target: int, times: seq<int>)
    requires NonDecreasing(times)
    ensures TicksNonIncreasing(Run(target, times))
    decreases |times|
  {
    if times != [] && times[0] < target {
      var rest := times[1..];
      RunTicksNonIncreasing(target, rest);
      var first := Remaining(target, times[0]);
      forall k | 0 <= k < |rest|
        ensures Remaining(target, rest[k]) <= first
      {
        RemainingMonotone(target, times[0], rest[k]);
      }
      RunTicksBounded(target, rest, first);
      var events := Run(target, times);
      assert events == [Tick(first)] + Run(target, rest);
      forall i, j | 0 <= i < j < |events| && events[i].Tick? && events[j].Tick?
        ensures events[j].remaining <= events[i].remaining
      {
        if i > 0 {
          assert events[i] == Run(target, rest)[i - 1];
        }
        assert events[j] == Run(target, rest)[j - 1];
      }
    }
  }

  /**
   * `Complete` is posted at most once per run, only as the last message, only
   * right after a tick of 0, and only by a firing at or after the target.
   */
  lemma {:induction false} RunCompletesOnceAtEnd(target: int, times: seq<int>)
    ensures forall i :: 0 <= i < |Run(target, times)| && Run(target, times)[i] == Complete ==>
      i == |Run(target, times)| - 1 && i >= 1 && Run(target, times)[i - 1] == Tick(0)
    ensures Complete in Run(target, times) ==>
      exists k :: 0 <= k < |times| && times[k] >= target
    decreases |times|
  {
    if times != [] && times[0] < target {
      var rest := times[1..];
      RunCompletesOnceAtEnd(target, rest);
      var events := Run(target, times);
      assert events == [Tick(Remaining(target, times[0]))] + Run(target, rest);
      forall i | 0 <= i < |events| && events[i] == Complete
        ensures i == |events| - 1 && i >= 1 && events[i - 1] == Tick(0)
      {
        assert Run(target, rest)[i - 1] == Complete;
        if i >= 2 {
          assert events[i - 1] == Run(target, rest)[i - 2];
        }
      }
      if Complete in events {
        assert Complete in Run(target, rest);
        var k :| 0 <= k < |rest| && rest[k] >= target;
        assert times[k + 1] >= target;
      }
    }
  }

  /** A run that reaches the target ends with `Complete`. */
  lemma {:induction false} RunReachingTargetCompletes(target: int, times: seq<int>, k: nat)
    requires k < |times| && times[k] >= target
    ensures |Run(target, times)| >= 2 && Run(target, times)[|Run(target, times)| - 1] == Complete
    decreases |times|
  {
    if times[0] < target {
      RunReachingTargetCompletes(target, times[1..], k - 1);
    }
  }

  function IdSet(id: Option<nat>): set<nat>
  {
    if id.Some? then {id.value} else {}
  }

  /**
   * The worker's global scope.  `live` holds the intervals the scheduler
   * would still fire; `nextId` is the id `setInterval` hands out next
   * (browsers never hand out 0, so `if (timerId)` tests `timerId.Some?`).
   */
  class Worker {
    var timerId: Option<nat>
    var startTime: Option<int>
    var targetTime: Option<int>
    var live: set<nat>
    var nextId: nat

    /** At most one interval is ever live, and it is the one `timerId` holds. */
    ghost predicate Valid()
      reads this
    {
      && live == IdSet(timerId)
      && (timerId.Some? ==> startTime.Some? && targetTime.Some? && 1 <= timerId.value < nextId)
      && nextId >= 1
    }

    predicate Running()
      reads this
    {
      timerId.Some?
    }

    /** The script's top level: all three variables start as `null`. */
    constructor ()
      ensures Valid() && !Running()
      ensures startTime == None && targetTime == None && live == {}
    {
      timerId, startTime, targetTime := None, None, None;
      live, nextId := {}, 1;
    }

    /** `start`: record start and target, clear the old interval, create a new one. */
    method Start(duration: int, now: int)
      requires Valid()
      modifies this
      ensures Valid() && Running()
      ensures startTime == Some(now) && targetTime == Some(now + duration * 1000)
      ensures timerId == Some(old(nextId)) && live == {old(nextId)}
      ensures old(timerId).Some? ==> old(timerId).value !in live
      ensures nextId == old(nextId) + 1
    {
      startTime := Some(now);
      targetTime := Some(now + duration * 1000);
      if timerId.Some? {
        live := live - {timerId.value};
      }
      timerId := Some(nextId);
      live := live + {nextId};
      nextId := nextId + 1;
    }

    /** `pause`: clear the live interval; start and target times stay. */
    method Pause()
      requires Valid()
      modifies this
      ensures Valid() && !Running() && live == {}
      ensures startTime == old(startTime) && targetTime == old(targetTime) && nextId == old(nextId)
    {
      if timerId.Some? {
        live := live - {timerId.value};
        timerId := None;
      }
    }

    /** `reset`: clear the live interval and forget start and target times. */
    method Reset()
      requires Valid()
      modifies this
      ensures Valid() && !Running() && live == {}
      ensures startTime == None && targetTime == None && nextId == old(nextId)
    {
      if timerId.Some? {
        live := live - {timerId.value};
        timerId := None;
      }
      startTime := None;
      targetTime := None;
    }

    /** `self.onmessage`: dispatch on the command; an unknown one does nothing. */
    method HandleMessage(command: Command, now: int)
      requires Valid()
      modifies this
      ensures Valid()
      ensures command.Start? ==>
        && startTime == Some(now) && targetTime == Some(now + command.duration * 1000)
        && timerId == Some(old(nextId)) && live == {old(nextId)} && nextId == old(nextId) + 1
      ensures command.Pause? ==>
        && timerId == None && live == {}
        && startTime == old(startTime) && targetTime == old(targetTime) && nextId == old(nextId)
      ensures command.Reset? ==>
        && timerId == None && live == {}
        && startTime == None && targetTime == None && nextId == old(nextId)
      ensures command.Unknown? ==>
        && timerId == old(timerId) && live == old(live)
        && startTime == old(startTime) && targetTime == old(targetTime) && nextId == old(nextId)
    {
      match command
      case Start(duration) => Start(duration, now);
      case Pause => Pause();
      case Reset => Reset();
      case Unknown =>
    }

    /**
     * One 500 ms slot of the scheduler.  A live interval posts a tick and,
     * once `now` reaches the target, `complete`, and clears itself; with no
     * live interval nothing is posted.
     */
    method Fire(now: int) returns (events: seq<Event>)
      requires Valid()
      modifies this
      ensures Valid()
      ensures !old(Running()) ==> events == [] && timerId == old(timerId) && live == old(live)
      ensures old(Running()) ==> events == Firing(old(targetTime).value, now)
      ensures old(Running()) ==>
        if now >= old(targetTime).value then !Running() && live == {}
        else timerId == old(timerId) && live == old(live)
      ensures startTime == old(startTime) && targetTime == old(targetTime) && nextId == old(nextId)
    {
      if timerId.None? {
        return [];
      }
      var target := targetTime.value;
      events := [Tick(Remaining(target, now))];
      if now >= target {
        events := events + [Complete];
        live := live - {timerId.value};
        timerId := None;
      }
    }
  }

  /**
   * A worker that receives `start(duration)` at `now0` and whose interval
   * then fires at the instants `times` posts exactly `Run` of its target.
   */
  method StartAndRun(duration: int, now0: int, times: seq<int>) returns (events: seq<Event>)
    ensures events == Run(now0 + duration * 1000, times)
  {
    var w := new Worker();
    w.Start(duration, now0);
    var target := now0 + duration * 1000;
    events := [];
    var i := 0;
    while i < |times|
      invariant 0 <= i <= |times|
      invariant w.Valid() && w.targetTime == Some(target)
      invariant events + (if w.Running() then Run(target, times[i..]) else []) == Run(target, times)
    {
      RunUnfold(target, times[i..]);
      assert times[i..][0] == times[i] && times[i..][1..] == times[i + 1..];
      var posted := w.Fire(times[i]);
      events := events + posted;
      i := i + 1;
    }
    assert times[i..] == [];
  }
}
