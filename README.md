# TrapDoor tick controller — a Dafny model

This project models the tick-rate controller and profiling bookkeeping of the
TrapDoor server mod (`mod/tick/GameTick.cpp`). The mod hooks the server's
`ServerLevel::tick` and lets an operator change how the world advances:
- freeze it;
- slow it down by a factor (`tick slow`);
- run several steps per tick (`tick acc`);
- fast-forward a number of game ticks in one burst (`tick fw`);
- reset it to normal.

It also runs two windowed profilers. The world profiler times the whole step
and seven subsystems. The actor profiler keeps per-actor time and tick counts.
Finally, a one-shot `mspt` sampler broadcasts the next step's duration, its
tps and a colour.

The model has two layers.

- **Values** (`tick_state.dfy`, `tick_spec.dfy`). The module-level globals of
  the source, the two profilers, counters of the host calls the controller
  makes (`original`, `lightTick`, `heavyTick`) and a log of emitted messages
  are gathered in one `TickState` datatype. `TickSpec` has one function per
  source operation. Each function carries a contract that says what the
  operation changes and that it keeps the invariant `Inv`:
  - the saved status is never Forward;
  - the Slow divisor is positive and the counter is non-negative;
  - an open profiling window has between 1 and `totalRound` rounds left;
  - a closed window holds no measurements.
- **Objects** (`game_tick.dfy`). `GameTick.TickController`,
  `GameTick.SimpleProfiler` and `GameTick.ActorProfiler` hold the same
  globals as mutable fields. The controller's methods update them in place,
  as the source does. The Wrap and Forward bursts keep their loops. Each
  method is proved to do to `State()` exactly what the matching `TickSpec`
  function does to the old state.

`tick_lemmas.dfy` proves the properties that involve several calls:
- the Slow cadence;
- Wrap and Frozen step counts;
- the Forward burst;
- the one-shot mspt sample;
- exactly-once window reporting;
- that the windows pause outside Normal;
- the command ranges and the invariant of every state reachable from the
  initial values.

`tick_traces.dfy` (`TickTraces`) shows the same exactly-once reporting for
both windows on traces that mix ticks with the subsystem and Actor::tick
hooks. In the host those hooks fire inside the profiled step's `original`
call. It also shows that each report carries the sums of everything measured
while its window was open.

Messages are abstract `Report` values; their text is not modelled.

### Behaviour of the code worth knowing

Each of these follows from the code as written. The first is visibly not
what was intended: the "already stopped" message at
mod/tick/GameTick.cpp:81 can never be sent.

- `freezeTick` acts only when the world is Normal. From Slow, Wrap or Forward
  it does nothing. From Frozen it says nothing: the "already stopped" branch
  is nested under the Normal guard, so it cannot run.
- `slowTick` does not reset `slowDownCounter`. A count left from an earlier
  Slow carries into the next one. `TickLemmas.SlowCadence` holds whatever the
  leftover count is. `TickLemmas.SlowFromZero` gives the exact count only
  from a zero counter.
- `forwardTick` accepts any count from Normal or Frozen. A count ≤ 0 runs no
  step, still emits the "gt passed" report and returns to the saved status.
  The "> 1200" notice compares the count as `size_t`, so a negative count
  also triggers it.
- The mspt flag is consumed only by a Normal tick. A Slow tick that runs a
  step does not consume it, and neither does a Wrap or Forward tick.
- Both profiling windows count rounds only on Normal ticks. The world window
  counts in the Normal branch; the actor window counts in `staticWork`,
  which only the Normal branch calls. The subsystem and actor hooks still
  accumulate while a window is open in any status.
- `resetTick` leaves `forwardTickNum`, `lastTickStats` and the Slow counter
  as they are.

## Model

| member | source | states |
|---|---|---|
| TickState.Init | mod/tick/GameTick.cpp:20-28 | The initial globals of lines 24-27: Normal with Normal saved, wrap speed 1, slow divisor 1 with counter 0, forward count 0, the mspt flag clear, both windows closed and clear with the given lengths, no host call of any kind and no message yet; they satisfy the invariant |
| TickState.GameProfile.Cleared | mod/tick/GameTick.cpp:265-268 | The world profiler after `reset`: closed, every accumulator zero, window length kept |
| TickState.ActorProfile.Cleared | mod/tick/GameTick.cpp:46-48 | The actor profiler after `reset`: closed, empty per-actor list, window length kept |
| TickSpec.AsSizeT | mod/tick/GameTick.cpp:105-111 | The int → size_t conversion of the forward count: below 2^64, the count itself for a count in 0..2^64-1, count + 2^64 for a negative one |
| TickSpec.ForwardSteps | mod/tick/GameTick.cpp:288-291 | The Forward loop runs 0 times for n ≤ 0 and n times otherwise |
| TickSpec.FreezeTick | mod/tick/GameTick.cpp:73-84 | Frozen afterwards iff the world was Normal or Frozen. From any status other than Normal nothing changes at all. From Normal only the status and one "halted" message change |
| TickSpec.ResetTick | mod/tick/GameTick.cpp:86-92 | Normal afterwards from every status, with one "reset" message. Every other field is unchanged (speeds, counters, saved status, profilers) |
| TickSpec.WrapTick | mod/tick/GameTick.cpp:94-103 | From Normal: Wrap at the given speed, one message, nothing else changed. Otherwise only a refusal message is added |
| TickSpec.ForwardTick | mod/tick/GameTick.cpp:105-116 | From Normal or Frozen: Forward with that status saved and the count stored unvalidated; the notice appears iff the size_t count exceeds 1200. Otherwise only a refusal message is added |
| TickSpec.SlowTick | mod/tick/GameTick.cpp:119-128 | From Normal: Slow with the given divisor and the counter kept as it was. Otherwise only a refusal message is added |
| TickSpec.SlowCommand | mod/tick/GameTick.cpp:192-200 | Arguments 2..64 reach slowTick; any other argument only adds an error. A newly entered Slow has a divisor in 2..64 |
| TickSpec.AccCommand | mod/tick/GameTick.cpp:201-209 | Arguments 2..10 reach wrapTick; any other argument only adds an error. A newly entered Wrap has a speed in 2..10 |
| TickSpec.ProfileWorld | mod/tick/GameTick.cpp:131-144 | While a window is open: refused, and the open window is untouched. Otherwise the window opens with `totalRound` rounds and clear accumulators, and nothing else changes. Outside Normal there is a warning but no refusal |
| TickSpec.ProfileEntities | mod/tick/GameTick.cpp:154-167 | The same protocol for the actor profiler, opening with an empty per-actor list |
| TickSpec.Mspt | mod/tick/GameTick.cpp:146-148 | Arms the one-shot flag and changes nothing else |
| TickSpec.QueryStatus | mod/tick/GameTick.cpp:169-187 | The answer names the current status, with the Slow divisor or the Wrap speed |
| TickSpec.TpsBelowTwenty | mod/tick/GameTick.cpp:54-55 | For a step over 50 ms, 1000000 / time is the truncated tps: below 20, and time × tps ≤ 10^6 < time × (tps + 1) |
| TickSpec.SendMsptInfo | mod/tick/GameTick.cpp:53-64 | tps is 20 iff time ≤ 50000 µs, and otherwise the truncated 10^6 / time. The colour is white iff ≤ 40000 µs, yellow iff strictly between 40000 and 50000, red iff ≥ 50000. The redstone flag is passed through |
| TickSpec.StaticWork | mod/tick/GameTick.cpp:40-50 | A closed actor window is left alone. Otherwise one round passes; on the last round the window is reported once and reset, and only the actor profiler and the log change |
| TickSpec.FullStep | mod/tick/GameTick.cpp:250-254 | One `original`, `lightTick` and `heavyTick` call, then staticWork; nothing else changes |
| TickSpec.SampleMspt | mod/tick/GameTick.cpp:256-261 | An armed flag emits exactly one sample of the measured step and is cleared. A clear flag changes nothing |
| TickSpec.WorldRound | mod/tick/GameTick.cpp:262-270 | The step's time is added to the whole-step bucket and one round passes. On the last round the window, with that total, is reported once and reset. Only the world profiler and the log change |
| TickSpec.NormalTick | mod/tick/GameTick.cpp:247-277 | The Normal branch: one call of each host function, the status is kept and the mspt flag is clear afterwards |
| TickSpec.Tick | mod/tick/GameTick.cpp:244-303 | Frozen: nothing changes. Normal: one `original`, `lightTick` and `heavyTick` call. Wrap: wrapSpeed `original`/`lightTick` calls and one `heavyTick`. Slow: one step iff counter mod divisor is 0, and the counter becomes (c + 1) mod divisor. Forward: max(0, n) `original`/`lightTick` calls and no `heavyTick`, then back to the saved status with the count cleared and one report. The status is kept except in Forward, the profilers are untouched outside Normal, and the mspt flag survives exactly the non-Normal ticks. Frozen, Slow and Wrap ticks add no report; only Forward changes the forward count, and only Slow changes the slow counter |
| TickSpec.SubsystemTick | mod/tick/GameTick.cpp:317-469 | While the world window is open, exactly the hooked subsystem's bucket grows by the elapsed time, and the chunk hook also counts one chunk. Every other bucket, the window and the rest of the state are unchanged, and nothing changes while it is closed |
| TickSpec.ActorTick | mod/tick/GameTick.cpp:474-491 | While the actor window is open, the actor's entry (created if missing) gains the time and one count, and every other entry is unchanged. Nothing changes while it is closed |
| TickLemmas.Run | mod/tick/GameTick.cpp:244-303 | Consecutive ticks keep the invariant and only append to the log. Without Forward they keep the status; they always keep the Slow divisor and the Wrap speed |
| TickLemmas.NormalTickShape | mod/tick/GameTick.cpp:247-277 | A Normal tick appends, in this order, the actor report (on its window's last round), the mspt sample (when armed) and the world report (on its window's last round). Each open window loses a round and a finished one is reset |
| TickLemmas.NormalTickCount | mod/tick/GameTick.cpp:247-277 | How many messages of any one kind a Normal tick adds |
| TickLemmas.OtherTickCount | mod/tick/GameTick.cpp:244-303 | A Frozen, Slow, Wrap or Forward tick adds no mspt sample and no profiler report |
| TickLemmas.MsptConsumedOnce | mod/tick/GameTick.cpp:256-261 | A tick clears the mspt flag iff it is a Normal tick, and adds exactly one sample iff the flag was armed and the tick is Normal |
| TickLemmas.MsptExactlyOnce | mod/tick/GameTick.cpp:146-148 | After `mspt`, any run of Normal ticks emits exactly one sample, the one of its first tick, and leaves the flag clear |
| TickLemmas.MsptNoneWhenClear | mod/tick/GameTick.cpp:256-261 | With the flag clear, Normal ticks emit no sample and keep the earlier log |
| TickLemmas.NormalTickWorld | mod/tick/GameTick.cpp:262-270 | One Normal tick with the world window open: a round passes with the step's time added, or on the last round the window is reported once and reset |
| TickLemmas.WorldWindowOpen | mod/tick/GameTick.cpp:262-270 | While fewer than R Normal ticks have passed since the window opened with R rounds, it stays open, the whole-step bucket holds the sum of their times, and nothing is reported |
| TickLemmas.WorldWindowClose | mod/tick/GameTick.cpp:262-270 | The R-th Normal tick reports the window exactly once, as the last message, with the sum of all R step times, and resets it |
| TickLemmas.NormalTickEntity | mod/tick/GameTick.cpp:40-50 | One Normal tick with the actor window open: a round passes, or on the last round the window is reported once and reset |
| TickLemmas.EntityWindowOpen | mod/tick/GameTick.cpp:40-50 | Over a run of bare Normal ticks (no Actor::tick hook in between), fewer than R of them leave the actor window open with its list unchanged and report nothing. `TickTraces.EntityWindowOpenTrace` covers traces with hooks |
| TickLemmas.EntityWindowClose | mod/tick/GameTick.cpp:40-50 | The R-th Normal tick reports the actor window exactly once and resets it |
| TickTraces.WorldWindowOpenTrace | mod/tick/GameTick.cpp:247-270 | On a trace of ticks and hook calls, while fewer than R ticks have passed since the world window opened with R rounds left: after k ticks it stays open with R − k rounds left, and nothing is reported. The whole-step bucket holds the sum of the ticks' times. Each subsystem bucket holds the sum of its hook's times, and the chunk count is the number of chunk hooks |
| TickTraces.WorldWindowCloseTrace | mod/tick/GameTick.cpp:247-270 | On a trace of ticks and hook calls that ends with the R-th tick: the window is reported exactly once, as the last message. The report holds every time the trace measured: the tick sum and each hook's sum. The window is then reset |
| TickTraces.EntityWindowOpenTrace | mod/tick/GameTick.cpp:40-50 | On a trace of ticks and hook calls, while fewer than R ticks have passed since the actor window opened with R rounds left: it stays open and nothing is reported. Its list has one entry per actor seen, holding that actor's summed time and its number of Actor::tick calls |
| TickTraces.EntityWindowCloseTrace | mod/tick/GameTick.cpp:40-50 | On a trace of ticks and hook calls that ends with the R-th tick: the actor window is reported exactly once during the trace, with every actor's summed time and count, and then reset |
| TickLemmas.WindowsPauseOutsideNormal | mod/tick/GameTick.cpp:244-303 | Frozen, Slow and Wrap ticks leave both windows exactly as they are and report neither |
| TickLemmas.FrozenRun | mod/tick/GameTick.cpp:245-246 | Any number of Frozen ticks change nothing |
| TickLemmas.WrapRun | mod/tick/GameTick.cpp:296-302 | k Wrap ticks make k × wrapSpeed `original`/`lightTick` calls and k `heavyTick` calls; nothing else changes (still Wrap, no report, the profilers and the other fields as they were) |
| TickLemmas.ForwardBurst | mod/tick/GameTick.cpp:287-295 | forwardTick from Normal or Frozen and then one tick: max(0, n) `original`/`lightTick` calls and no `heavyTick`. The count is cleared, the previous status is back and there is one report. The profilers and the mspt flag are untouched |
| TickLemmas.SlowSteps | mod/tick/GameTick.cpp:279-285 | Never more steps than ticks |
| TickLemmas.SlowStepsWindow | mod/tick/GameTick.cpp:279-285 | Any n consecutive Slow ticks with divisor n run exactly one step, whatever the counter was |
| TickLemmas.SlowStepsFromZero | mod/tick/GameTick.cpp:279-285 | From a zero counter, k Slow ticks run ⌈k / n⌉ steps |
| TickLemmas.SlowRun | mod/tick/GameTick.cpp:279-286 | k Slow ticks run SlowSteps steps (each with all three host calls). The counter ends at (c + k) mod n, and nothing else changes (still Slow, no report, the profilers and the other fields as they were) |
| TickLemmas.SlowCadence | mod/tick/GameTick.cpp:279-286 | Any slowDownTimes consecutive Slow ticks run exactly one full step, even with a counter left over from an earlier Slow |
| TickLemmas.SlowFromZero | mod/tick/GameTick.cpp:279-286 | From a zero counter, G Slow ticks call `original` ⌈G / slowDownTimes⌉ times |
| TickLemmas.Step | mod/tick/GameTick.cpp:189-224 | Every command (with its range check), tick and hook keeps the invariant |
| TickLemmas.RunOps | mod/tick/GameTick.cpp:189-224 | Any sequence of commands, ticks and hooks keeps the invariant; in particular the saved status is never Forward and the Slow divisor stays positive |
| TickLemmas.StepRanges | mod/tick/GameTick.cpp:192-209 | Every command, tick and hook keeps three facts: a Slow divisor within 2..64, a Wrap speed within 2..10, and a saved status of Normal or Frozen |
| TickLemmas.Reachable | mod/tick/GameTick.cpp:20-28 | From the initial globals, any sequence of commands, ticks and hooks reaches only states with the invariant and the command ranges |
| GameTick.SimpleProfiler.constructor | mod/tick/GameTick.cpp:23 | A closed world profiler with every accumulator zero |
| GameTick.SimpleProfiler.Reset | mod/tick/GameTick.cpp:268 | Closes the window and zeroes every accumulator, keeping the window length |
| GameTick.ActorProfiler.constructor | mod/tick/GameTick.cpp:30-33 | A closed actor profiler with an empty list |
| GameTick.ActorProfiler.Reset | mod/tick/GameTick.cpp:48 | Closes the window and empties the list |
| GameTick.TickController.constructor | mod/tick/GameTick.cpp:20-28 | The new controller's state is `TickState.Init` |
| GameTick.TickController.FreezeTick | mod/tick/GameTick.cpp:73-84 | In place, exactly `TickSpec.FreezeTick`; the dead "already stopped" branch is proved unreachable |
| GameTick.TickController.ResetTick | mod/tick/GameTick.cpp:86-92 | In place, exactly `TickSpec.ResetTick` |
| GameTick.TickController.WrapTick | mod/tick/GameTick.cpp:94-103 | In place, exactly `TickSpec.WrapTick` |
| GameTick.TickController.ForwardTick | mod/tick/GameTick.cpp:105-116 | In place, exactly `TickSpec.ForwardTick` |
| GameTick.TickController.SlowTick | mod/tick/GameTick.cpp:119-128 | In place, exactly `TickSpec.SlowTick` |
| GameTick.TickController.SlowCommand | mod/tick/GameTick.cpp:192-200 | In place, exactly `TickSpec.SlowCommand` |
| GameTick.TickController.AccCommand | mod/tick/GameTick.cpp:201-209 | In place, exactly `TickSpec.AccCommand` |
| GameTick.TickController.ProfileWorld | mod/tick/GameTick.cpp:131-144 | In place, exactly `TickSpec.ProfileWorld` |
| GameTick.TickController.Mspt | mod/tick/GameTick.cpp:146-148 | In place, exactly `TickSpec.Mspt` |
| GameTick.TickController.GetTickStatus | mod/tick/GameTick.cpp:150-152 | Returns the current status |
| GameTick.TickController.ProfileEntities | mod/tick/GameTick.cpp:154-167 | In place, exactly `TickSpec.ProfileEntities` |
| GameTick.TickController.QueryStatus | mod/tick/GameTick.cpp:169-187 | Returns `TickSpec.QueryStatus` of the current state |
| GameTick.TickController.StaticWork | mod/tick/GameTick.cpp:40-50 | In place, exactly `TickSpec.StaticWork` |
| GameTick.TickController.Tick | mod/tick/GameTick.cpp:244-303 | In place, exactly `TickSpec.Tick` |
| GameTick.TickController.NormalStep | mod/tick/GameTick.cpp:247-277 | In place, exactly `TickSpec.Tick` on a Normal world, timed or not |
| GameTick.TickController.FullStep | mod/tick/GameTick.cpp:250-254 | In place, exactly `TickSpec.FullStep` |
| GameTick.TickController.SampleMspt | mod/tick/GameTick.cpp:256-261 | In place, exactly `TickSpec.SampleMspt` |
| GameTick.TickController.TimedStep | mod/tick/GameTick.cpp:249-270 | In place, exactly `TickSpec.NormalTick` when a profile or a sample is pending |
| GameTick.TickController.WorldRound | mod/tick/GameTick.cpp:262-270 | In place, exactly `TickSpec.WorldRound` |
| GameTick.TickController.SlowStep | mod/tick/GameTick.cpp:279-286 | In place, exactly `TickSpec.Tick` on a Slow world |
| GameTick.TickController.ForwardBurst | mod/tick/GameTick.cpp:287-295 | The `for` loop proved against `TickSpec.Tick` on a Forward world: after i rounds, i more `original`/`lightTick` calls and nothing else |
| GameTick.TickController.WrapBurst | mod/tick/GameTick.cpp:296-302 | The `for` loop proved against `TickSpec.Tick` on a Wrap world: wrapSpeed `original`/`lightTick` calls, then one `heavyTick` |
| GameTick.TickController.SubsystemTick | mod/tick/GameTick.cpp:317-469 | In place, exactly `TickSpec.SubsystemTick`, touching only the world profiler |
| GameTick.TickController.ActorTick | mod/tick/GameTick.cpp:474-491 | In place, exactly `TickSpec.ActorTick`, touching only the actor profiler |

## Left out

- The hook machinery is not modelled. This covers `THook`, the mangled symbol names and the calls to `original`. Each hooked function is a method, and host calls are only counted.
- `TIMER_START`/`TIMER_END` are not modelled. The measured duration is a parameter (`elapsed`, in microseconds).
- The lazy `bdsMod` set-up and `getLevel`/`setLevel` (mod/tick/GameTick.cpp:234-242) are host calls and are not modelled.
- `isRedstoneTick()` (mod/tick/GameTick.cpp:258) is a host query. It is a parameter of `Tick`, read only when a sample is taken.
- The `ServerPlayer::tickWorld` pass-through and the commented-out spawner hook are not modelled: neither has logic.
- Message text, colours as rendered, `%.3f` formatting, `MessageBuilder`, `broadcastMsg`/`info`/`warning`/`error` and the difference between a broadcast and a reply are not modelled. Messages are abstract `Report` values in a log.
- tools/Message.cpp is a call into the game binary and is not part of this model.
- The bodies of `SimpleProfiler::print`/`reset` and `ActorProfiler::print`/`reset` are not part of this model, since their headers are absent. `print` becomes a report carrying the profiler's fields.
- TickState.GameProfile.Cleared, TickState.ActorProfile.Cleared: the `reset` behaviour is assumed to clear every accumulator or the list, close the window and zero the round counter, keeping the window length.
- The window lengths (`totalRound`) come from the profilers' headers. They are constructor parameters here, of at least 1.
- The command registration chain (mod/tick/GameTick.cpp:189-224) is modelled only through its range checks and the `TickLemmas.Op` alternatives it dispatches to.
- TickSpec.SendMsptInfo: the source computes tps in `double` (1000.0 / (time / 1000.0), truncated). The model uses exact integer division 10^6 / time. The two can differ only where the double quotient rounds across an integer.
- Integer widths are not modelled, except the `size_t` conversion in `forwardTick`'s notice. Fields are unbounded; the Slow counter never exceeds 64, and the microsecond accumulators and host-call counters cannot overflow here. `forwardTick` stores its argument unchanged, since `int` → `size_t` → `int` is the identity on the host.
- TickSpec.SlowTick, GameTick.TickController.SlowTick: require a divisor of at least 1. The source has no guard, and 0 would make the Slow branch divide by zero. Its only caller passes 2..64.
- TickSpec.SubsystemTick, TickSpec.ActorTick: the hooks run inside `original` in the host, but here they are independent events that can come between any two ticks. The model does not tie them to the steps that cause them. The `TickTraces` lemmas hold for every such interleaving.
- Concurrency is not modelled. The source runs on the server's single tick thread, and commands are assumed to run on the same thread.
