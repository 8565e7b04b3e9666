/**
 * The timer controller (utils/timer-utils.ts).
 *
 * One `TimerUtils` object holds the registered callback pair and either a
 * worker, to which it posts commands, or nothing, in which case every
 * `startTimer` starts an in-page fallback interval.  Callbacks are opaque
 * identifiers; calling one appends an `Invocation` to the `invoked` log, and
 * posting to the worker appends the command to the `posted` log.
 */
module Timers {
  import opened Wrappers
  import opened TimerWorker

  /** Identity of a callback function passed by the caller. */
  type CallbackId = nat

  /**
   * A message from the worker: `{ type, remaining }`.  A `complete` message
   * carries no `remaining`; the model puts 0 there, which is never read.
   */
  datatype Message = Message(kind: string, remaining: int)

  /** A callback invocation: `onTick(remaining)` or `onComplete()`. */
  datatype Invocation = TickCall(callback: CallbackId, remaining: int) | CompleteCall(callback: CallbackId)

  /** The wire form of what the worker posts. */
  function Encode(event: Event): (msg: Message)
    ensures event.Tick? ==> msg.kind == "tick" && msg.remaining == event.remaining
    ensures event.Complete? ==> msg.kind == "complete"
  {
    match event
    case Tick(r) => Message("tick", r)
    case Complete => Message("complete", 0)
  }

  /**
   * The worker's `onmessage` handler: a tick message calls `onTick` if one
   * is registered, a complete message calls `onComplete` if one is
   * registered, and anything else calls nothing.
   */
  function Dispatch(onTick: Option<CallbackId>, onComplete: Option<CallbackId>, msg: Message): (calls: seq<Invocation>)
    ensures msg.kind == "tick" && onTick.Some? ==> calls == [TickCall(onTick.value, msg.remaining)]
    ensures msg.kind == "complete" && onComplete.Some? ==> calls == [CompleteCall(onComplete.value)]
    ensures calls != [] ==> (msg.kind == "tick" && onTick.Some?) || (msg.kind == "complete" && onComplete.Some?)
  {
    if msg.kind == "tick" && onTick.Some? then [TickCall(onTick.value, msg.remaining)]
    else if msg.kind == "complete" && onComplete.Some? then [CompleteCall(onComplete.value)]
    else []
  }

  /** Dispatching a sequence of worker events, in order. */
  function DispatchAll(onTick: Option<CallbackId>, onComplete: Option<CallbackId>, events: seq<Event>): (calls: seq<Invocation>)
    ensures |calls| <= |events|
    ensures onTick.Some? && onComplete.Some? ==> |calls| == |events|
    ensures onTick == None && onComplete == None ==> calls == []
    decreases |events|
  {
    if events == [] then []
    else Dispatch(onTick, onComplete, Encode(events[0])) + DispatchAll(onTick, onComplete, events[1..])
  }

  /** Messages are handled one after another: handling `a + b` is handling `a`, then `b`. */
  lemma {:induction false} DispatchAllAppend(onTick: Option<CallbackId>, onComplete: Option<CallbackId>, a: seq<Event>, b: seq<Event>)
    ensures DispatchAll(onTick, onComplete, a + b) == DispatchAll(onTick, onComplete, a) + DispatchAll(onTick, onComplete, b)
    decreases |a|
  {
    if a != [] {
      assert (a + b)[0] == a[0] && (a + b)[1..] == a[1..] + b;
      DispatchAllAppend(onTick, onComplete, a[1..], b);
    } else {
      assert a + b == b;
    }
  }

  /**
   * What one firing of a fallback interval with target `target` calls:
   * `onTick(remaining)` first if registered, then, once `now` reaches the
   * target, `onComplete()` if registered.
   */
  function FallbackFiring(onTick: Option<CallbackId>, onComplete: Option<CallbackId>, target: int, now: int): (calls: seq<Invocation>)
    ensures |calls| == (if onTick.Some? then 1 else 0) + (if now >= target && onComplete.Some? then 1 else 0)
    ensures onTick.Some? ==> calls[0] == TickCall(onTick.value, Remaining(target, now))
    ensures now >= target && onTick.Some? ==> calls[0] == TickCall(onTick.value, 0)
    ensures now >= target && onComplete.Some? ==> calls[|calls| - 1] == CompleteCall(onComplete.value)
  {
    var tick := if onTick.Some? then [TickCall(onTick.value, Remaining(target, now))] else [];
    var done := if now >= target && onComplete.Some? then [CompleteCall(onComplete.value)] else [];
    tick + done
  }

  /**
   * The fallback loop calls exactly what the worker path calls for the same
   * target, instant and callbacks.
   */
  lemma FallbackAgreesWithWorker(onTick: Option<CallbackId>, onComplete: Option<CallbackId>, target: int, now: int)
    ensures DispatchAll(onTick, onComplete, Firing(target, now)) == FallbackFiring(onTick, onComplete, target, now)
  {
    var events := Firing(target, now);
    var tickCalls := Dispatch(onTick, onComplete, Encode(events[0]));
    assert DispatchAll(onTick, onComplete, events) == tickCalls + DispatchAll(onTick, onComplete, events[1..]);
    if now >= target {
      assert events[1..] == [Complete];
      assert DispatchAll(onTick, onComplete, events[1..]) == Dispatch(onTick, onComplete, Encode(Complete));
    } else {
      assert events[1..] == [];
    }
  }

  /**
   * The controller.  `fallbacks` holds the live fallback intervals by the id
   * the scheduler gave them, with their target times; the controller never
   * stores those ids, so only a fallback's own completion removes it.
   */
  class TimerUtils {
    const hasWorker: bool
    var onTick: Option<CallbackId>
    var onComplete: Option<CallbackId>
    var posted: seq<Command>
    var invoked: seq<Invocation>
    var fallbacks: map<nat, int>
    var nextInterval: nat

    ghost predicate Valid()
      reads this
    {
      && (hasWorker ==> fallbacks == map[])
      && (forall id :: id in fallbacks ==> id < nextInterval)
    }

    /** The private constructor: `workerCreated` says whether `new Worker(...)` succeeded. */
    constructor (workerCreated: bool)
      ensures Valid()
      ensures hasWorker == workerCreated
      ensures onTick == None && onComplete == None
      ensures posted == [] && invoked == [] && fallbacks == map[] && nextInterval == 1
    {
      hasWorker := workerCreated;
      onTick, onComplete := None, None;
      posted, invoked := [], [];
      fallbacks, nextInterval := map[], 1;
    }

    /**
     * `startTimer`: both callbacks are overwritten (an omitted one becomes
     * unregistered); with a worker exactly one `start` is posted, otherwise
     * a new fallback interval starts beside any still running.
     */
    method StartTimer(duration: int, tick: Option<CallbackId>, complete: Option<CallbackId>, now: int)
      requires Valid()
      modifies this
      ensures Valid()
      ensures onTick == tick && onComplete == complete
      ensures invoked == old(invoked)
      ensures hasWorker ==> posted == old(posted) + [Start(duration)] && fallbacks == old(fallbacks)
      ensures hasWorker ==> nextInterval == old(nextInterval)
      ensures !hasWorker ==> posted == old(posted) && nextInterval == old(nextInterval) + 1
      ensures !hasWorker ==>
        && old(nextInterval) !in old(fallbacks)
        && fallbacks == old(fallbacks)[old(nextInterval) := now + duration * 1000]
    {
      onTick := tick;
      onComplete := complete;
      if hasWorker {
        posted := posted + [Start(duration)];
      } else {
        fallbacks := fallbacks[nextInterval := now + duration * 1000];
        nextInterval := nextInterval + 1;
      }
    }

    /** `pauseTimer`: posts `pause` when there is a worker; otherwise nothing happens. */
    method PauseTimer()
      requires Valid()
      modifies this
      ensures Valid()
      ensures posted == if hasWorker then old(posted) + [Pause] else old(posted)
      ensures fallbacks == old(fallbacks) && invoked == old(invoked) && nextInterval == old(nextInterval)
      ensures onTick == old(onTick) && onComplete == old(onComplete)
    {
      if hasWorker {
        posted := posted + [Pause];
      }
    }

    /** `resetTimer`: posts `reset` when there is a worker; otherwise nothing happens. */
    method ResetTimer()
      requires Valid()
      modifies this
      ensures Valid()
      ensures posted == if hasWorker then old(posted) + [Reset] else old(posted)
      ensures fallbacks == old(fallbacks) && invoked == old(invoked) && nextInterval == old(nextInterval)
      ensures onTick == old(onTick) && onComplete == old(onComplete)
    {
      if hasWorker {
        posted := posted + [Reset];
      }
    }

    /** Delivery of one worker message to the handler installed in the constructor. */
    method OnWorkerMessage(msg: Message)
      requires Valid()
      modifies this
      ensures Valid()
      ensures invoked == old(invoked) + (if hasWorker then Dispatch(onTick, onComplete, msg) else [])
      ensures posted == old(posted) && fallbacks == old(fallbacks) && nextInterval == old(nextInterval)
      ensures onTick == old(onTick) && onComplete == old(onComplete)
    {
      if hasWorker {
        invoked := invoked + Dispatch(onTick, onComplete, msg);
      }
    }

    /**
     * One firing of fallback interval `id`.  It calls whatever callbacks
     * are registered now, and clears itself once its target is reached.
     */
    method FireFallback(id: nat, now: int)
      requires Valid()
      modifies this
      ensures Valid()
      ensures id !in old(fallbacks) ==> invoked == old(invoked) && fallbacks == old(fallbacks)
      ensures id in old(fallbacks) ==>
        invoked == old(invoked) + FallbackFiring(onTick, onComplete, old(fallbacks)[id], now)
      ensures id in old(fallbacks) ==>
        fallbacks == if now >= old(fallbacks)[id] then old(fallbacks) - {id} else old(fallbacks)
      ensures posted == old(posted) && onTick == old(onTick) && onComplete == old(onComplete)
      ensures nextInterval == old(nextInterval)
    {
      if id in fallbacks {
        var target := fallbacks[id];
        invoked := invoked + FallbackFiring(onTick, onComplete, target, now);
        if now >= target {
          fallbacks := fallbacks - {id};
        }
      }
    }
  }

  /**
   * Without a worker, a superseded fallback is not cancelled: after two
   * `startTimer` calls, a pause and a reset, both loops still fire, both
   * into the callbacks of the second call, so `onComplete` runs twice.
   */
  method SupersededFallbackStillFires(duration: int, now: int, later: int) returns (calls: seq<Invocation>)
    requires later >= now + duration * 1000
    ensures calls == [TickCall(2, 0), CompleteCall(3), TickCall(2, 0), CompleteCall(3)]
  {
    var timers := new TimerUtils(false);
    timers.StartTimer(duration, Some(0), Some(1), now);
    timers.StartTimer(duration, Some(2), Some(3), now);
    timers.PauseTimer();
    timers.ResetTimer();
    assert timers.fallbacks == map[1 := now + duration * 1000, 2 := now + duration * 1000];
    timers.FireFallback(1, later);
    assert timers.invoked == [TickCall(2, 0), CompleteCall(3)];
    timers.FireFallback(2, later);
    calls := timers.invoked;
  }

  /** The holder of `TimerUtils.instance`, the static slot behind `getInstance`. */
  class TimerUtilsSlot {
    var instance: TimerUtils?

    constructor ()
      ensures instance == null
    {
      instance := null;
    }

    /**
     * `getInstance`: the first call constructs the controller (probing for
     * a worker once); every later call returns that same object.
     */
    method GetInstance(workerCreated: bool) returns (timers: TimerUtils)
      modifies this
      ensures instance == timers
      ensures old(instance) != null ==> timers == old(instance)
      ensures old(instance) == null ==>
        fresh(timers) && timers.Valid() && timers.hasWorker == workerCreated &&
        timers.onTick == None && timers.onComplete == None &&
        timers.posted == [] && timers.invoked == [] && timers.fallbacks == map[]
    {
      if instance == null {
        instance := new TimerUtils(workerCreated);
      }
      timers := instance;
    }
  }
}
