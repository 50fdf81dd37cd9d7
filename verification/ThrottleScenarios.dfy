/** Concrete runs of the controller with `wait = 500` and a burst of
    triggers at 1000, 1100 and 1200 followed by one at 1600 (arguments 0, 1,
    2 and 3), one per configuration.  They pin down how the code behaves
    where a reader might expect otherwise: the trailing call keeps the first
    captured arguments, the timer callback restarts the window, and the
    configuration with both edges off still runs the function. */
module ThrottleScenarios {
  import opened Wrappers
  import opened Throttle
  import opened ThrottleTrace

  const Burst: seq<Event<int>> := [Trigger(1000, 0), Trigger(1100, 1), Trigger(1200, 2)]

  /** Leading edge only: the function runs at 1000 and at 1600, and the
      triggers in between are ignored. */
  lemma LeadingOnlyScenario()
    ensures Run(Config(500, true, false), Initial(), Burst + [Trigger(1600, 3)]).log
            == [Invoked(1000, 0), Invoked(1600, 3)]
  {
    var cfg := Config(500, true, false);
    var e0: seq<Event<int>> := [];
    var e1 := e0 + [Trigger(1000, 0)];
    RunSnoc(cfg, Initial(), e0, Trigger(1000, 0));
    var e2 := e1 + [Trigger(1100, 1)];
    RunSnoc(cfg, Initial(), e1, Trigger(1100, 1));
    var e3 := e2 + [Trigger(1200, 2)];
    RunSnoc(cfg, Initial(), e2, Trigger(1200, 2));
    var e4 := e3 + [Trigger(1600, 3)];
    RunSnoc(cfg, Initial(), e3, Trigger(1600, 3));
    assert e3 == Burst;
    assert e4 == Burst + [Trigger(1600, 3)];
  }

  /** The defaults (trailing edge only): the first trigger seeds the window
      and arms a timer due at 1500; the trailing call at 1500 runs with the
      arguments of the trigger that armed it (0), not of the latest one (2);
      the trigger at 1600 falls inside the window the callback restarted and
      arms a new timer due at 2000 with its own arguments. */
  lemma DefaultsScenario()
    ensures Run(Defaults(500), Initial(), Burst + [TimerFire(1500), Trigger(1600, 3)])
            == Outcome(State(Some(1500), Some(Pending(2000, 3))), [Invoked(1500, 0)])
  {
    var cfg := Defaults(500);
    var e0: seq<Event<int>> := [];
    var e1 := e0 + [Trigger(1000, 0)];
    RunSnoc(cfg, Initial(), e0, Trigger(1000, 0));
    var e2 := e1 + [Trigger(1100, 1)];
    RunSnoc(cfg, Initial(), e1, Trigger(1100, 1));
    var e3 := e2 + [Trigger(1200, 2)];
    RunSnoc(cfg, Initial(), e2, Trigger(1200, 2));
    var e4 := e3 + [TimerFire(1500)];
    RunSnoc(cfg, Initial(), e3, TimerFire(1500));
    var e5 := e4 + [Trigger(1600, 3)];
    RunSnoc(cfg, Initial(), e4, Trigger(1600, 3));
    assert e3 == Burst;
    assert e5 == Burst + [TimerFire(1500), Trigger(1600, 3)];
  }

  /** Both edges: a leading call at 1000, the trailing call at 1500 with the
      arguments of the trigger at 1100, and no leading call at 1600 since the
      callback restarted the window at 1500; a timer due at 2000 is armed
      instead. */
  lemma BothEdgesScenario()
    ensures Run(Config(500, true, true), Initial(), Burst + [TimerFire(1500), Trigger(1600, 3)])
            == Outcome(State(Some(1500), Some(Pending(2000, 3))), [Invoked(1000, 0), Invoked(1500, 1)])
  {
    var cfg := Config(500, true, true);
    var e0: seq<Event<int>> := [];
    var e1 := e0 + [Trigger(1000, 0)];
    RunSnoc(cfg, Initial(), e0, Trigger(1000, 0));
    var e2 := e1 + [Trigger(1100, 1)];
    RunSnoc(cfg, Initial(), e1, Trigger(1100, 1));
    var e3 := e2 + [Trigger(1200, 2)];
    RunSnoc(cfg, Initial(), e2, Trigger(1200, 2));
    var e4 := e3 + [TimerFire(1500)];
    RunSnoc(cfg, Initial(), e3, TimerFire(1500));
    var e5 := e4 + [Trigger(1600, 3)];
    RunSnoc(cfg, Initial(), e4, Trigger(1600, 3));
    assert e3 == Burst;
    assert e5 == Burst + [TimerFire(1500), Trigger(1600, 3)];
  }

  /** Both edges off: the first trigger only seeds the window, and a trigger
      once the window has elapsed still runs the function. */
  lemma NeitherEdgeScenario()
    ensures Run(Config(500, false, false), Initial(), [Trigger(1000, 0), Trigger(1600, 1)]).log
            == [Invoked(1600, 1)]
  {
    var cfg := Config(500, false, false);
    var e0: seq<Event<int>> := [];
    var e1 := e0 + [Trigger(1000, 0)];
    RunSnoc(cfg, Initial(), e0, Trigger(1000, 0));
    var e2 := e1 + [Trigger(1600, 1)];
    RunSnoc(cfg, Initial(), e1, Trigger(1600, 1));
    assert e2 == [Trigger(1000, 0), Trigger(1600, 1)];
  }

  /** `cancel` drops the pending trailing call, and the next trigger is
      treated as the first one ever: with a leading call it runs at once. */
  lemma CancelScenario()
    ensures Run(Config(500, true, true), Initial(), [Trigger(1000, 0), Trigger(1100, 1), Cancel, Trigger(1200, 2)])
            == Outcome(State(Some(1200), None), [Invoked(1000, 0), Reset, Invoked(1200, 2)])
  {
    var cfg := Config(500, true, true);
    var e0: seq<Event<int>> := [];
    var e1 := e0 + [Trigger(1000, 0)];
    RunSnoc(cfg, Initial(), e0, Trigger(1000, 0));
    var e2 := e1 + [Trigger(1100, 1)];
    RunSnoc(cfg, Initial(), e1, Trigger(1100, 1));
    var e3 := e2 + [Cancel];
    RunSnoc(cfg, Initial(), e2, Cancel);
    var e4 := e3 + [Trigger(1200, 2)];
    RunSnoc(cfg, Initial(), e3, Trigger(1200, 2));
    assert e4 == [Trigger(1000, 0), Trigger(1100, 1), Cancel, Trigger(1200, 2)];
  }
}
