# Throttle controller, modelled in Dafny

This project models `throttle(func, wait, { leading, trailing })` from
`code/throttle/throttle.js`. The wrapper bounds how often `func` runs in
response to a stream of calls. Its state is two slots:

- `startTime`: the start of the current window. It holds the falsy sentinel
  `0` until the first window is set, and again after `cancel`.
- `timer`: null, or one pending trailing call.

Three stimuli drive it:

- a trigger: a call of the returned `throttled` function at time `now`,
  with some arguments;
- the firing of the pending `setTimeout` callback;
- `throttled.cancel()`.

On each trigger the wrapper does one of three things: runs `func` at once,
arms one deferred trailing call, or drops the trigger. `cancel` clears
everything.

Modules:

- `Wrappers`: the `Option` type. It stands for JavaScript's null and the
  falsy start time.
- `Throttle`: the configuration, the state, and the step functions for the
  three stimuli:
  - `Throttled` is the trigger handler;
  - `TimerCallback` is the `setTimeout` callback;
  - `CancelAll` is `cancel`;
  - `Step` dispatches on the stimulus.
- `ThrottleTrace`: runs over sequences of stimuli. It holds the reachable-state
  invariant, spacing between invocations, the disabled trailing edge, dropped
  triggers, the first trigger with and without `leading`, and what `cancel`
  forgets.
- `ThrottleScenarios`: concrete runs for each configuration, with `wait = 500`.

Modelling choices:

- Time is an integer clock in milliseconds.
- `func` is opaque. Each invocation becomes an `Invoked(time, args)` entry in
  an output log. Each `cancel` adds a `Reset` entry, so "no cancel in
  between" means "adjacent in the log".
- `startTime` is an `Option<int>`:
  - JavaScript's `!startTime` is true only for the numeric sentinel `0`. Once
    the slot holds a `Date` it is truthy, whatever the clock reads, so
    `Some(t)` never counts as unset, not even for `t == 0`.
  - In the subtraction `curTime - startTime`, an unset start counts as `0`
    (`StartOf`).
- A pending timer is recorded as its due time (`now + remaining`) plus the
  arguments captured by the trigger that armed it.
- A `TimerFire` stimulus with no timer pending changes nothing. A cleared
  timer never runs.

Behaviour of the code that a reader might not expect:

- **Defaults.** The defaults are `leading = false` and `trailing = true`
  (throttle.js:18), so a wrapper built without options has no leading call.
  The comment at throttle.js:7 says the leading call is on by default. See
  `Throttle.Defaults` and `DefaultsScenario`.
- **Argument capture.** The trailing call runs with the arguments of the
  trigger that armed the timer: the first trigger wins. Later triggers that
  find a timer pending are dropped and do not update the captured arguments,
  so the latest arguments of a burst can be lost. See `DroppedTrigger` and
  `DefaultsScenario`.
- **Both edges off.** With `{ leading: false, trailing: false }` the function
  still runs. The first trigger only seeds the window. Any later trigger that
  arrives once `wait` has elapsed runs the function. See
  `NeitherEdgeScenario`.
- **Both edges on.** With triggers at 1000, 1100, 1200 and 1600 and
  `wait = 500`, there is no leading call at 1600. The trailing callback at
  1500 restarted the window, so the trigger at 1600 arms a new timer for
  2000. See `BothEdgesScenario`.
- **Leading first call.** With `leading` on, a first trigger reads the unset
  start as time `0`. It runs the function at once only when `now >= wait`,
  which always holds for real clock readings. See `LeadingFirstTrigger`.

## Model

| member | source | states |
|---|---|---|
| Throttle.Defaults | code/throttle/throttle.js:18 | A wrapper built without options has no leading call and has a trailing call, with the given `wait` |
| Throttle.Throttled | code/throttle/throttle.js:22-46 | A trigger runs `func` exactly when the remaining time (measured from the seeded start) is at most 0. It then runs once, synchronously, with this trigger's args, clears the timer and restarts the window at `now`. Otherwise only the seeding step touches the start time. A timer is created only when none is pending and trailing is on; it is due at start + `wait` and captures this trigger's args. A pending timer is never replaced, and survives every trigger that finds time left in the window |
| Throttle.TimerCallback | code/throttle/throttle.js:40-44 | The firing timer restarts the window at the firing time, empties the timer slot and runs `func` once with the args captured when it was scheduled. With no timer pending, nothing happens |
| Throttle.CancelAll | code/throttle/throttle.js:48-52 | `cancel` leaves no pending timer and an unset start time |
| Throttle.Step | code/throttle/throttle.js:22-52 | Each stimulus adds at most one log entry. A `cancel` adds exactly a reset and runs nothing. Every invocation happens at the stimulus's own time |
| ThrottleTrace.Run | code/throttle/throttle.js:22-52 | A run's log has no more entries than the run has stimuli |
| ThrottleTrace.StepKeepsInv | code/throttle/throttle.js:28-44 | One step preserves the invariant: a pending timer implies trailing is on and the timer is due at start + `wait`; without leading, a pending timer implies the start is set; after an invocation, the start equals its time |
| ThrottleTrace.RunKeepsInv | code/throttle/throttle.js:39-44 | Every state reachable from a fresh wrapper satisfies the invariant. In particular, a pending timer exists only with trailing on and is due exactly one window after the start |
| ThrottleTrace.Spacing | code/throttle/throttle.js:30-44 | If timers never fire before their due time, any two consecutive invocations with no `cancel` between them are at least `wait` apart |
| ThrottleTrace.NoTrailingNoTimer | code/throttle/throttle.js:39-44 | With trailing off, no timer is ever pending, and every invocation matches a trigger with the same time and args |
| ThrottleTrace.DroppedTrigger | code/throttle/throttle.js:32-45 | In a reachable state with a timer pending and time left in the window, a trigger leaves the state unchanged, keeps the captured args, and runs nothing |
| ThrottleTrace.NoLeadingFirstTrigger | code/throttle/throttle.js:28-44 | Without leading and with `wait > 0`, a trigger that finds the start unset never runs `func` and sets the start to `now`. It arms a timer due at `now + wait` with its own args if and only if trailing is on |
| ThrottleTrace.LeadingFirstTrigger | code/throttle/throttle.js:28-32 | With leading on and the start unset, a trigger runs `func` at once if and only if `now >= wait`, because the sentinel counts as time 0 |
| ThrottleTrace.CancelForgets | code/throttle/throttle.js:48-52 | After a `cancel`, the rest of the run behaves exactly as on a freshly built wrapper, whatever came before; the `cancel` itself only adds a reset |
| ThrottleTrace.CancelIdempotent | code/throttle/throttle.js:48-52 | Two `cancel`s leave the same state as one, and neither runs `func` |
| ThrottleScenarios.LeadingOnlyScenario | code/throttle/throttle.js:28-45 | With `{leading: true, trailing: false}`, triggers at 1000, 1100, 1200 and 1600 run `func` at 1000 and 1600 only |
| ThrottleScenarios.DefaultsScenario | code/throttle/throttle.js:18-45 | With the defaults, the burst's trailing call runs at 1500 with the first trigger's args. The trigger at 1600 arms a timer for 2000 |
| ThrottleScenarios.BothEdgesScenario | code/throttle/throttle.js:28-45 | With both edges on: a leading call at 1000, a trailing call at 1500 with the 1100 trigger's args, and no leading call at 1600 |
| ThrottleScenarios.NeitherEdgeScenario | code/throttle/throttle.js:28-38 | With both edges off, a trigger after the seeded window has elapsed still runs `func` |
| ThrottleScenarios.CancelScenario | code/throttle/throttle.js:28-52 | A `cancel` drops the pending trailing call. With leading on, the next trigger runs at once |

## Left out

- DOM glue (throttle.js:1-16): element lookups, the `input` listener and `toUpper`. It is UI side effects with no logic.
- The real clock and timers: `new Date()`, `setTimeout` and `clearTimeout`. They become the time carried by each stimulus and an abstract pending-timer slot. The environment decides when a timer fires.
- ThrottleTrace.Spacing: assumes timers never fire before their due time (`Punctual`). Nothing in the program can enforce this. Monotone time is not needed.
- JavaScript calling conventions: the `this` binding, `arguments` and `func.apply`. They become one opaque argument value per trigger.
- Exceptions thrown by `func`, and how they propagate synchronously or from the timer callback.
- Non-integer, non-numeric or `NaN` values of `wait`. Also a delay above 2^31-1 ms: browsers store the delay as a signed 32-bit value, so it overflows and the timer fires at once, which also breaks the `Punctual` assumption.
- Calls from `func` back into the wrapper, and the state a throwing `func` leaves. The model applies each stimulus as one atomic step. The trigger handler calls `func` before it restarts the window (throttle.js:37-38), while the timer callback updates the state first and calls `func` last (throttle.js:41-43). So with `leading` on, a `func` that calls the wrapper sees the old start and recurses. A `func` that calls `cancel` has its reset overwritten by line 38. A `func` that throws on the trigger path leaves the timer cleared and the window not restarted.
- ThrottleTrace.Spacing: relies on the atomic-step model above. A `func` that re-enters the wrapper on the trigger path can cause invocations less than `wait` apart, and the lemma does not cover that.
- Config: the options are plain booleans. In the source the defaults apply only when an option is `undefined` (throttle.js:18), and `leading` and `trailing` are read by truthiness (throttle.js:28, 39), so any truthy or falsy value acts like `true` or `false`.
