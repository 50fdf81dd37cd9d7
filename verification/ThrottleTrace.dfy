/** Runs of the throttle controller over sequences of stimuli, and the
    properties that hold along every run: the shape of the pending timer, the
    spacing between invocations, what a disabled trailing edge rules out, and
    what `cancel` forgets. */
module ThrottleTrace {
  import opened Wrappers
  import opened Throttle

  /** The stimuli `evs` applied in order from `s`: the final state and the
      concatenated log. */
  function Run<A>(cfg: Config, s: State<A>, evs: seq<Event<A>>): (r: Outcome<A>)
    ensures |r.log| <= |evs|
    decreases |evs|
  {
    if evs == [] then Outcome(s, [])
    else
      var prev := Run(cfg, s, evs[..|evs| - 1]);
      var last := Step(cfg, prev.state, evs[|evs| - 1]);
      Outcome(last.state, prev.log + last.log)
  }

  /** The environment's timer never fires before the delay it was given: a
      `TimerFire` finding a pending timer comes no earlier than its due time. */
  ghost predicate OnTime<A>(s: State<A>, e: Event<A>) {
    e.TimerFire? && s.timer.Some? ==> e.now >= s.timer.value.due
  }

  /** Every `TimerFire` of the run from `s` is on time. */
  ghost predicate Punctual<A>(cfg: Config, s: State<A>, evs: seq<Event<A>>)
    decreases |evs|
  {
    evs == [] ||
    (Punctual(cfg, s, evs[..|evs| - 1]) && OnTime(Run(cfg, s, evs[..|evs| - 1]).state, evs[|evs| - 1]))
  }

  /** Consecutive invocations of the log with no reset between them are at
      least `wait` apart. */
  ghost predicate Spaced<A>(wait: int, log: seq<Entry<A>>) {
    forall i :: 0 <= i && i + 1 < |log| && log[i].Invoked? && log[i + 1].Invoked? ==>
      log[i + 1].time - log[i].time >= wait
  }

  /** What every reachable state satisfies, relative to the log that led
      to it:
      - a pending timer exists only with trailing on, and it is due one full
        window after the start;
      - without a leading call, a pending timer implies the start is set;
      - when the last entry is an invocation, the window starts at its time. */
  ghost predicate Inv<A>(cfg: Config, s: State<A>, log: seq<Entry<A>>) {
    && (s.timer.Some? ==> cfg.trailing && s.timer.value.due == StartOf(s.startTime) + cfg.wait)
    && (s.timer.Some? && !cfg.leading ==> s.startTime.Some?)
    && (|log| > 0 && log[|log| - 1].Invoked? ==> s.startTime == Some(log[|log| - 1].time))
  }

  lemma StepKeepsInv<A>(cfg: Config, s: State<A>, log: seq<Entry<A>>, e: Event<A>)
    requires Inv(cfg, s, log)
    ensures Inv(cfg, Step(cfg, s, e).state, log + Step(cfg, s, e).log)
  {
    var o := Step(cfg, s, e);
    if o.log == [] {
      assert log + o.log == log;
    }
  }

  /** Every state reachable from a fresh wrapper satisfies the invariant. */
  lemma {:induction false} RunKeepsInv<A>(cfg: Config, evs: seq<Event<A>>)
    ensures Inv(cfg, Run(cfg, Initial(), evs).state, Run(cfg, Initial(), evs).log)
    ensures Run(cfg, Initial(), evs).state.timer.Some? ==>
              && cfg.trailing
              && Run(cfg, Initial(), evs).state.timer.value.due
                 == StartOf(Run(cfg, Initial(), evs).state.startTime) + cfg.wait
    decreases |evs|
  {
    if evs != [] {
      var pre := evs[..|evs| - 1];
      RunKeepsInv(cfg, pre);
      StepKeepsInv(cfg, Run(cfg, Initial(), pre).state, Run(cfg, Initial(), pre).log, evs[|evs| - 1]);
    }
  }

  /** Spacing: when the environment's timers are never early, any two
      consecutive invocations with no `cancel` between them are at least
      `wait` apart. */
  lemma {:induction false} Spacing<A>(cfg: Config, evs: seq<Event<A>>)
    requires Punctual(cfg, Initial(), evs)
    ensures Spaced(cfg.wait, Run(cfg, Initial(), evs).log)
    decreases |evs|
  {
    if evs != [] {
      var pre := evs[..|evs| - 1];
      var e := evs[|evs| - 1];
      var prev := Run(cfg, Initial(), pre);
      var o := Step(cfg, prev.state, e);
      var log := prev.log + o.log;
      assert Run(cfg, Initial(), evs).log == log;
      Spacing(cfg, pre);
      RunKeepsInv(cfg, pre);
      forall i | 0 <= i && i + 1 < |log| && log[i].Invoked? && log[i + 1].Invoked?
        ensures log[i + 1].time - log[i].time >= cfg.wait
      {
        if i + 1 < |prev.log| {
          assert log[i] == prev.log[i] && log[i + 1] == prev.log[i + 1];
        } else {
          // The new invocation follows the last entry of the previous log.
          assert |o.log| == 1 && i == |prev.log| - 1;
          assert log[i + 1] == o.log[0];
          assert prev.state.startTime == Some(prev.log[i].time);
        }
      }
    }
  }

  /** With trailing off no timer is ever pending, and every invocation is
      the synchronous answer to a trigger with the same time and arguments. */
  lemma {:induction false} NoTrailingNoTimer<A>(cfg: Config, evs: seq<Event<A>>)
    requires !cfg.trailing
    ensures Run(cfg, Initial(), evs).state.timer.None?
    ensures forall i :: 0 <= i < |Run(cfg, Initial(), evs).log| && Run(cfg, Initial(), evs).log[i].Invoked? ==>
              Trigger(Run(cfg, Initial(), evs).log[i].time, Run(cfg, Initial(), evs).log[i].args) in evs
    decreases |evs|
  {
    if evs != [] {
      var pre := evs[..|evs| - 1];
      var e := evs[|evs| - 1];
      var prev := Run(cfg, Initial(), pre);
      var o := Step(cfg, prev.state, e);
      var log := prev.log + o.log;
      NoTrailingNoTimer(cfg, pre);
      forall i | 0 <= i < |log| && log[i].Invoked?
        ensures Trigger(log[i].time, log[i].args) in evs
      {
        if i < |prev.log| {
          assert log[i] == prev.log[i];
          assert Trigger(log[i].time, log[i].args) in pre;
        } else {
          assert log[i] == o.log[0];
          assert e == Trigger(log[i].time, log[i].args);
        }
      }
    }
  }

  /** Dropped triggers: in a reachable state with a timer pending and time
      left in the window, a trigger changes nothing and runs nothing; the
      timer keeps the arguments it captured. */
  lemma DroppedTrigger<A>(cfg: Config, evs: seq<Event<A>>, now: int, args: A)
    requires Run(cfg, Initial(), evs).state.timer.Some?
    requires Remaining(cfg, Run(cfg, Initial(), evs).state, now) > 0
    ensures Step(cfg, Run(cfg, Initial(), evs).state, Trigger(now, args))
            == Outcome(Run(cfg, Initial(), evs).state, [])
  {
  }

  /** Without a leading call, a trigger that finds the start unset in a
      reachable state seeds the window at `now` and, for a positive `wait`,
      never runs the function; it arms a timer due at `now + wait` with its
      own arguments exactly when trailing is on. */
  lemma NoLeadingFirstTrigger<A>(cfg: Config, evs: seq<Event<A>>, now: int, args: A)
    requires !cfg.leading && cfg.wait > 0
    requires Run(cfg, Initial(), evs).state.startTime.None?
    ensures Step(cfg, Run(cfg, Initial(), evs).state, Trigger(now, args)).log == []
    ensures Step(cfg, Run(cfg, Initial(), evs).state, Trigger(now, args)).state.startTime == Some(now)
    ensures cfg.trailing <==>
              Step(cfg, Run(cfg, Initial(), evs).state, Trigger(now, args)).state.timer
              == Some(Pending(now + cfg.wait, args))
  {
  }

  /** With a leading call, a trigger that finds the start unset reads the
      sentinel 0 as the start: it runs the function at once exactly when
      `now` is at least `wait`. */
  lemma LeadingFirstTrigger<A>(cfg: Config, s: State<A>, now: int, args: A)
    requires cfg.leading && s.startTime.None?
    ensures Throttled(cfg, s, now, args).log != [] <==> now >= cfg.wait
  {
  }

  /** One more stimulus at the end of a run is one more step. */
  lemma RunSnoc<A>(cfg: Config, s: State<A>, evs: seq<Event<A>>, e: Event<A>)
    ensures Run(cfg, s, evs + [e])
            == Outcome(Step(cfg, Run(cfg, s, evs).state, e).state,
                       Run(cfg, s, evs).log + Step(cfg, Run(cfg, s, evs).state, e).log)
  {
    assert (evs + [e])[..|evs|] == evs;
  }

  /** Running `a` and then `b` is running `a + b`. */
  lemma {:induction false} RunAppend<A>(cfg: Config, s: State<A>, a: seq<Event<A>>, b: seq<Event<A>>)
    ensures Run(cfg, s, a + b)
            == Outcome(Run(cfg, Run(cfg, s, a).state, b).state,
                       Run(cfg, s, a).log + Run(cfg, Run(cfg, s, a).state, b).log)
    decreases |b|
  {
    var mid := Run(cfg, s, a);
    if b == [] {
      assert a + b == a;
      assert mid.log + [] == mid.log;
    } else {
      var b' := b[..|b| - 1];
      assert (a + b)[..|a + b| - 1] == a + b';
      assert (a + b)[|a + b| - 1] == b[|b| - 1];
      RunAppend(cfg, s, a, b');
      var tail := Run(cfg, mid.state, b');
      var o := Step(cfg, tail.state, b[|b| - 1]);
      assert mid.log + tail.log + o.log == mid.log + (tail.log + o.log);
    }
  }

  /** `cancel` makes the wrapper forget its history: whatever came before,
      the stimuli after a `cancel` behave exactly as on a fresh wrapper, and
      the `cancel` itself runs nothing. */
  lemma CancelForgets<A>(cfg: Config, s: State<A>, before: seq<Event<A>>, after: seq<Event<A>>)
    ensures Run(cfg, s, before + [Cancel] + after)
            == Outcome(Run(cfg, Initial(), after).state,
                       Run(cfg, s, before).log + [Reset] + Run(cfg, Initial(), after).log)
  {
    RunAppend(cfg, s, before + [Cancel], after);
    RunAppend(cfg, s, before, [Cancel]);
    var pre := Run(cfg, s, before);
    var c: seq<Event<A>> := [Cancel];
    assert c[..0] == [];
    assert Run(cfg, pre.state, c) == Outcome(Initial(), [Reset]);
  }

  /** Calling `cancel` twice has the same effect as calling it once. */
  lemma CancelIdempotent<A>(cfg: Config, s: State<A>)
    ensures Run(cfg, s, [Cancel, Cancel]).state == Run(cfg, s, [Cancel]).state
    ensures forall i :: 0 <= i < |Run(cfg, s, [Cancel, Cancel]).log| ==>
              !Run(cfg, s, [Cancel, Cancel]).log[i].Invoked?
  {
    var c: seq<Event<A>> := [Cancel];
    var cc: seq<Event<A>> := [Cancel, Cancel];
    assert cc[..1] == c;
    assert c[..0] == [];
  }
}
