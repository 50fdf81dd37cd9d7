/** The throttle controller: a wrapper that lets a function run at most once
    per `wait` window, on the leading edge, on a deferred trailing call, or
    both.  The controller's state is two slots, the start time of the current
    window and an optional pending timer.  Three stimuli drive it: a trigger
    (a call of the wrapper), the firing of the pending timer, and `cancel`.

    Time is an integer clock (milliseconds).  The wrapped function is opaque:
    an invocation is recorded as an `Invoked` entry carrying the time and the
    arguments it was applied to. */
module Throttle {
  import opened Wrappers

  /** The options fixed when the wrapper is built. */
  datatype Config = Config(wait: int, leading: bool, trailing: bool)

  /** The options a caller gets by passing none: no leading call, a
      trailing call. */
  function Defaults(wait: int): (r: Config)
    ensures r.wait == wait && !r.leading && r.trailing
  {
    Config(wait, false, true)
  }

  /** A deferred trailing call: when it is due and the arguments it captured
      from the trigger that scheduled it. */
  datatype Pending<A> = Pending(due: int, args: A)

  /** `startTime` is `None` while it holds the falsy sentinel 0, and
      `Some(t)` once it holds a clock reading (a clock reading is never falsy,
      whatever its value). */
  datatype State<A> = State(startTime: Option<int>, timer: Option<Pending<A>>)

  /** The observable log: invocations of the wrapped function, and the
      resets done by `cancel`. */
  datatype Entry<A> = Invoked(time: int, args: A) | Reset

  /** The new state after one stimulus, and what it added to the log. */
  datatype Outcome<A> = Outcome(state: State<A>, log: seq<Entry<A>>)

  /** The three stimuli. */
  datatype Event<A> = Trigger(now: int, args: A) | TimerFire(now: int) | Cancel

  /** The state of a freshly built wrapper. */
  function Initial<A>(): State<A> {
    State(None, None)
  }

  /** The number an unset start time contributes to a subtraction. */
  function StartOf(start: Option<int>): int {
    match start
    case None => 0
    case Some(t) => t
  }

  /** The start time after the first-call seeding step: without a leading
      call, a trigger that finds the start unset makes `now` the start. */
  function SeededStart<A>(cfg: Config, s: State<A>, now: int): Option<int> {
    if s.startTime.None? && !cfg.leading then Some(now) else s.startTime
  }

  /** Time left in the current window at `now`, measured from the seeded
      start. */
  function Remaining<A>(cfg: Config, s: State<A>, now: int): int {
    cfg.wait - (now - StartOf(SeededStart(cfg, s, now)))
  }

  /** A trigger at `now` with arguments `args`.  It runs the function at once
      exactly when the window has elapsed; otherwise it schedules a trailing
      call only when trailing is on and no timer is pending, and else drops
      the trigger.  The whole trigger is one atomic step, so a wrapped
      function that calls back into the wrapper is not modelled. */
  function Throttled<A>(cfg: Config, s: State<A>, now: int, args: A): (r: Outcome<A>)
    // Elapsed window: one synchronous invocation with this trigger's args,
    // the pending timer cleared and the window restarted at `now`.
    ensures Remaining(cfg, s, now) <= 0 <==> r.log != []
    ensures Remaining(cfg, s, now) <= 0 ==>
              r.log == [Invoked(now, args)] && r.state == State(Some(now), None)
    // Otherwise only the seeding step may touch the start time.
    ensures Remaining(cfg, s, now) > 0 ==> r.state.startTime == SeededStart(cfg, s, now)
    // A timer is only created when none is pending and trailing is on; it is
    // due one full window after the start and keeps this trigger's args.
    ensures r.state.timer.Some? && r.state.timer != s.timer ==>
              && s.timer.None?
              && cfg.trailing
              && r.state.timer.value == Pending(StartOf(r.state.startTime) + cfg.wait, args)
    ensures Remaining(cfg, s, now) > 0 && s.timer.None? && cfg.trailing ==> r.state.timer.Some?
    // A pending timer is never replaced: it survives or is cleared.
    ensures s.timer.Some? ==> r.state.timer == s.timer || r.state.timer.None?
    ensures s.timer.Some? && Remaining(cfg, s, now) > 0 ==> r.state.timer == s.timer
  {
    var start := SeededStart(cfg, s, now);
    var remaining := cfg.wait - (now - StartOf(start));
    if remaining <= 0 then
      Outcome(State(Some(now), None), [Invoked(now, args)])
    else if s.timer.None? && cfg.trailing then
      Outcome(State(start, Some(Pending(now + remaining, args))), [])
    else
      Outcome(State(start, s.timer), [])
  }

  /** The pending timer's callback running at `now`: the window restarts at
      the firing time, the timer slot empties and the function runs with the
      arguments captured when the timer was scheduled.  A cleared timer never
      runs, so with nothing pending the stimulus changes nothing. */
  function TimerCallback<A>(s: State<A>, now: int): (r: Outcome<A>)
    ensures s.timer.Some? ==>
              && r.log == [Invoked(now, s.timer.value.args)]
              && r.state.startTime == Some(now)
              && r.state.timer.None?
    ensures s.timer.None? ==> r.state == s && r.log == []
  {
    match s.timer
    case None => Outcome(s, [])
    case Some(p) => Outcome(State(Some(now), None), [Invoked(now, p.args)])
  }

  /** `cancel`: the pending timer is cleared without running and the start
      time goes back to the unset sentinel. */
  function CancelAll<A>(s: State<A>): (r: State<A>)
    ensures r.timer.None? && r.startTime.None?
  {
    Initial()
  }

  /** One stimulus applied to the state. */
  function Step<A>(cfg: Config, s: State<A>, e: Event<A>): (r: Outcome<A>)
    // At most one entry per stimulus, and an invocation always happens at the
    // stimulus's own time.
    ensures |r.log| <= 1
    ensures e.Cancel? <==> r.log == [Reset]
    ensures forall i :: 0 <= i < |r.log| && r.log[i].Invoked? ==> !e.Cancel? && r.log[i].time == e.now
  {
    match e
    case Trigger(now, args) => Throttled(cfg, s, now, args)
    case TimerFire(now) => TimerCallback(s, now)
    case Cancel => Outcome(CancelAll(s), [Reset])
  }
}
