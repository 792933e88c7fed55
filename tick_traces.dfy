/** The profiling windows over real traces. Inside a profiled Normal step the
    host's `original` call fires the subsystem hooks and the Actor::tick hook,
    so a window sees ServerLevel::tick calls interleaved with hook calls. The
    lemmas here show that the world and actor windows still report exactly
    once, on their R-th Normal tick, and that the report carries the sums of
    every hook's time measured while the window was open. */
module TickTraces {
  import opened TickState
  import opened TickSpec
  import opened TickLemmas

  /** A ServerLevel::tick call or a hook call; no operator command. */
  predicate IsTickOrHook(op: Op) {
    op.LevelTick? || op.HookTick? || op.ActorHookTick?
  }

  predicate OnlyTicksAndHooks(ops: seq<Op>) {
    forall k | 0 <= k < |ops| :: IsTickOrHook(ops[k])
  }

  // ---------------------------------------------------------------------
  // What a trace adds up to

  /** The number of ServerLevel::tick calls in a trace. */
  function Ticks(ops: seq<Op>): nat {
    if ops == [] then 0 else (if ops[0].LevelTick? then 1 else 0) + Ticks(ops[1..])
  }

  /** The total measured step time of the trace's ticks. */
  function TickTime(ops: seq<Op>): nat {
    if ops == [] then 0
    else (if ops[0].LevelTick? then ops[0].input.elapsed else 0) + TickTime(ops[1..])
  }

  /** The total time the hook of `sub` measured in the trace. */
  function HookTime(ops: seq<Op>, sub: Subsystem): nat {
    if ops == [] then 0
    else (if ops[0].HookTick? && ops[0].sub == sub then ops[0].hookElapsed else 0)
         + HookTime(ops[1..], sub)
  }

  /** The number of calls of the hook of `sub` in the trace. */
  function HookCount(ops: seq<Op>, sub: Subsystem): nat {
    if ops == [] then 0
    else (if ops[0].HookTick? && ops[0].sub == sub then 1 else 0) + HookCount(ops[1..], sub)
  }

  /** The actors whose Actor::tick the trace calls. */
  function ActorIds(ops: seq<Op>): set<ActorId> {
    if ops == [] then {}
    else (if ops[0].ActorHookTick? then {ops[0].id} else {}) + ActorIds(ops[1..])
  }

  /** The total time measured for actor `id` in the trace. */
  function ActorTime(ops: seq<Op>, id: ActorId): nat {
    if ops == [] then 0
    else (if ops[0].ActorHookTick? && ops[0].id == id then ops[0].actorElapsed else 0)
         + ActorTime(ops[1..], id)
  }

  /** The number of Actor::tick calls for actor `id` in the trace. */
  function ActorCount(ops: seq<Op>, id: ActorId): nat {
    if ops == [] then 0
    else (if ops[0].ActorHookTick? && ops[0].id == id then 1 else 0) + ActorCount(ops[1..], id)
  }

  /** `g` is the world profiler `g0` plus everything the trace measured:
      the ticks' step times in the whole-step bucket, each hook's time in
      its own bucket and one count per chunk hook. */
  predicate WorldAccumulated(g0: GameProfile, ops: seq<Op>, g: GameProfile) {
    && g.totalRound == g0.totalRound
    && g.serverLevelTickTime == g0.serverLevelTickTime + TickTime(ops)
    && (forall sub: Subsystem :: g.Bucket(sub) == g0.Bucket(sub) + HookTime(ops, sub))
    && g.tickChunkNum == g0.tickChunkNum + HookCount(ops, Chunk)
  }

  /** `a` is the actor profiler `a0` plus every Actor::tick of the trace:
      one entry per actor seen, holding its summed time and its count. */
  ghost predicate ActorAccumulated(a0: ActorProfile, ops: seq<Op>, a: ActorProfile) {
    && a.totalRound == a0.totalRound
    && a.entitiesTickingList.Keys == a0.entitiesTickingList.Keys + ActorIds(ops)
    && forall id :: EntryOf(a.entitiesTickingList, id) ==
         TickEntry(EntryOf(a0.entitiesTickingList, id).time + ActorTime(ops, id),
                   EntryOf(a0.entitiesTickingList, id).count + ActorCount(ops, id))
  }

  /** Proof step only: the sums of a one-element trace. */
  lemma SingleSums(op: Op)
    ensures Ticks([op]) == (if op.LevelTick? then 1 else 0)
    ensures TickTime([op]) == (if op.LevelTick? then op.input.elapsed else 0)
    ensures forall sub :: HookTime([op], sub) == (if op.HookTick? && op.sub == sub then op.hookElapsed else 0)
    ensures forall sub :: HookCount([op], sub) == (if op.HookTick? && op.sub == sub then 1 else 0)
    ensures ActorIds([op]) == (if op.ActorHookTick? then {op.id} else {})
    ensures forall id :: ActorTime([op], id) == (if op.ActorHookTick? && op.id == id then op.actorElapsed else 0)
    ensures forall id :: ActorCount([op], id) == (if op.ActorHookTick? && op.id == id then 1 else 0)
  {
    assert [op][1..] == [];
  }

  /** Accumulating a trace is accumulating its first operation, then the rest. */
  lemma WorldAccumulatedCons(g0: GameProfile, g1: GameProfile, ops: seq<Op>, g: GameProfile)
    requires ops != []
    requires WorldAccumulated(g0, [ops[0]], g1) && WorldAccumulated(g1, ops[1..], g)
    ensures WorldAccumulated(g0, ops, g)
  {
    SingleSums(ops[0]);
  }

  lemma ActorAccumulatedCons(a0: ActorProfile, a1: ActorProfile, ops: seq<Op>, a: ActorProfile)
    requires ops != []
    requires ActorAccumulated(a0, [ops[0]], a1) && ActorAccumulated(a1, ops[1..], a)
    ensures ActorAccumulated(a0, ops, a)
  {
    SingleSums(ops[0]);
  }

  /** A trace that ends with a tick holds at least one tick. */
  lemma {:induction false} TicksOfLastTick(ops: seq<Op>)
    ensures |ops| > 0 && ops[|ops| - 1].LevelTick? ==> Ticks(ops) >= 1
    decreases |ops|
  {
    if |ops| > 1 {
      TicksOfLastTick(ops[1..]);
      assert ops[1..][|ops[1..]| - 1] == ops[|ops| - 1];
    }
  }

  // ---------------------------------------------------------------------
  // The world window

  /** `s1` is what one tick or hook `op` leaves from `s` with the world window
      open: a hook adds to its bucket, a tick passes a round, and the last
      round's tick closes, reports and resets the window. */
  predicate WorldOpEffect(s: TickState, op: Op, s1: TickState) {
    && Inv(s1) && s1.status == Normal
    && (op.LevelTick? && s.game.currentRound == 1 ==> WorldClosed(s, op.input.elapsed, s1))
    && (!(op.LevelTick? && s.game.currentRound == 1) ==>
          && s1.game.inProfiling
          && s1.game.currentRound == s.game.currentRound - (if op.LevelTick? then 1 else 0)
          && WorldAccumulated(s.game, [op], s1.game)
          && Count(s1.reports, IsWorldReport) == Count(s.reports, IsWorldReport))
  }

  /** Proof step only: the tick case of WorldOpEffect. */
  lemma WorldTickEffect(s: TickState, i: TickInput)
    requires Inv(s) && s.status == Normal && s.game.inProfiling
    ensures WorldOpEffect(s, LevelTick(i), Tick(s, i.elapsed, i.isRedstoneTick))
  {
    SingleSums(LevelTick(i));
    NormalTickWorld(s, i.elapsed, i.isRedstoneTick);
  }

  /** Proof step only: the subsystem hook case of WorldOpEffect. */
  lemma WorldHookEffect(s: TickState, sub: Subsystem, e: nat)
    requires Inv(s) && s.status == Normal && s.game.inProfiling
    ensures WorldOpEffect(s, HookTick(sub, e), SubsystemTick(s, sub, e))
  {
    SingleSums(HookTick(sub, e));
  }

  /** Proof step only: the actor hook case of WorldOpEffect. */
  lemma WorldActorHookEffect(s: TickState, id: ActorId, e: nat)
    requires Inv(s) && s.status == Normal && s.game.inProfiling
    ensures WorldOpEffect(s, ActorHookTick(id, e), ActorTick(s, id, e))
  {
    SingleSums(ActorHookTick(id, e));
  }

  /** The first operation of a trace with the world window open, as the
      state `s1` it leaves for the rest of the trace. */
  lemma WorldFirstOp(s: TickState, ops: seq<Op>) returns (s1: TickState)
    requires Inv(s) && s.status == Normal && s.game.inProfiling
    requires ops != [] && IsTickOrHook(ops[0])
    ensures WorldOpEffect(s, ops[0], s1)
    ensures RunOps(s, ops) == RunOps(s1, ops[1..])
  {
    s1 := Step(s, ops[0]);
    match ops[0]
    case LevelTick(i) => WorldTickEffect(s, i);
    case HookTick(sub, e) => WorldHookEffect(s, sub, e);
    case ActorHookTick(id, e) => WorldActorHookEffect(s, id, e);
  }

  /** While fewer than R ticks have passed since the world window opened with
      R rounds left, whatever hooks fire in between: it stays open, its
      buckets hold the sums of the times measured, and nothing is reported. */
  lemma {:induction false} WorldWindowOpenTrace(s: TickState, ops: seq<Op>)
    requires Inv(s) && s.status == Normal && s.game.inProfiling
    requires OnlyTicksAndHooks(ops) && Ticks(ops) < s.game.currentRound
    ensures var r := RunOps(s, ops);
      && r.status == Normal && r.game.inProfiling
      && r.game.currentRound == s.game.currentRound - Ticks(ops)
      && WorldAccumulated(s.game, ops, r.game)
      && Count(r.reports, IsWorldReport) == Count(s.reports, IsWorldReport)
    decreases |ops|
  {
    if ops == [] {
      assert RunOps(s, ops) == s;
    } else {
      var s1 := WorldFirstOp(s, ops);
      assert OnlyTicksAndHooks(ops[1..]) by {
        forall k | 0 <= k < |ops[1..]| ensures IsTickOrHook(ops[1..][k]) {
          assert ops[1..][k] == ops[k + 1];
        }
      }
      WorldWindowOpenTrace(s1, ops[1..]);
      WorldAccumulatedCons(s.game, s1.game, ops, RunOps(s1, ops[1..]).game);
    }
  }

  /** `r` follows a trace that closed the world window open in `s`: the window
      is reset, and it was reported once, as the last report, holding every
      time the trace measured. */
  predicate WorldClosedAfter(s: TickState, ops: seq<Op>, r: TickState) {
    && r.status == Normal
    && r.game == s.game.Cleared()
    && Count(r.reports, IsWorldReport) == Count(s.reports, IsWorldReport) + 1
    && |r.reports| > 0
    && r.reports[|r.reports| - 1].WorldReport?
    && !r.reports[|r.reports| - 1].game.inProfiling
    && r.reports[|r.reports| - 1].game.currentRound == 0
    && WorldAccumulated(s.game, ops, r.reports[|r.reports| - 1].game)
  }

  /** The trace ending with the R-th tick since the world window opened with
      R rounds left, whatever hooks fire in between: that tick reports the
      window exactly once, with all it measured, and resets it. */
  lemma {:induction false} WorldWindowCloseTrace(s: TickState, ops: seq<Op>)
    requires Inv(s) && s.status == Normal && s.game.inProfiling
    requires OnlyTicksAndHooks(ops) && Ticks(ops) == s.game.currentRound
    requires ops != [] && ops[|ops| - 1].LevelTick?
    ensures WorldClosedAfter(s, ops, RunOps(s, ops))
    decreases |ops|
  {
    var s1 := WorldFirstOp(s, ops);
    TicksOfLastTick(ops[1..]);
    if ops[0].LevelTick? && s.game.currentRound == 1 {
      assert ops == [ops[0]];
      WorldClosedLast(s, ops, s1, RunOps(s, ops));
    } else {
      assert OnlyTicksAndHooks(ops[1..]) by {
        forall k | 0 <= k < |ops[1..]| ensures IsTickOrHook(ops[1..][k]) {
          assert ops[1..][k] == ops[k + 1];
        }
      }
      WorldWindowCloseTrace(s1, ops[1..]);
      WorldClosedAfterShift(s, s1, ops, RunOps(s1, ops[1..]), RunOps(s, ops));
    }
  }

  /** Proof step only: the closing tick as a one-element trace. */
  lemma WorldClosedLast(s: TickState, ops: seq<Op>, s1: TickState, r: TickState)
    requires |ops| == 1 && ops[0].LevelTick?
    requires WorldClosed(s, ops[0].input.elapsed, s1) && r == s1
    ensures WorldClosedAfter(s, ops, r)
  {
    assert ops == [ops[0]];
    SingleSums(ops[0]);
  }

  /** Proof step only: a window that the first operation had advanced. */
  lemma WorldClosedAfterShift(s: TickState, s1: TickState, ops: seq<Op>, r: TickState, r': TickState)
    requires ops != []
    requires WorldAccumulated(s.game, [ops[0]], s1.game)
    requires Count(s1.reports, IsWorldReport) == Count(s.reports, IsWorldReport)
    requires WorldClosedAfter(s1, ops[1..], r) && r' == r
    ensures WorldClosedAfter(s, ops, r')
  {
    WorldAccumulatedCons(s.game, s1.game, ops, r.reports[|r.reports| - 1].game);
  }

  // ---------------------------------------------------------------------
  // The actor window

  /** `s1` is what one tick or hook `op` leaves from `s` with the actor window
      open: an Actor::tick adds to its actor's entry, a tick passes a round,
      and the last round's tick reports the window as its first message and
      resets it. */
  ghost predicate ActorOpEffect(s: TickState, op: Op, s1: TickState) {
    && Inv(s1) && s1.status == Normal
    && |s.reports| <= |s1.reports|
    && (op.LevelTick? && s.actor.currentRound == 1 ==>
          && s1.actor == s.actor.Cleared()
          && Count(s1.reports, IsEntityReport) == Count(s.reports, IsEntityReport) + 1
          && |s1.reports| > |s.reports|
          && s1.reports[|s.reports|] == EntityReport(s.actor.(currentRound := 0)))
    && (!(op.LevelTick? && s.actor.currentRound == 1) ==>
          && s1.actor.inProfiling
          && s1.actor.currentRound == s.actor.currentRound - (if op.LevelTick? then 1 else 0)
          && ActorAccumulated(s.actor, [op], s1.actor)
          && Count(s1.reports, IsEntityReport) == Count(s.reports, IsEntityReport))
  }

  /** Proof step only: the tick case of ActorOpEffect. */
  lemma ActorTickEffect(s: TickState, i: TickInput)
    requires Inv(s) && s.status == Normal && s.actor.inProfiling
    ensures ActorOpEffect(s, LevelTick(i), Tick(s, i.elapsed, i.isRedstoneTick))
  {
    SingleSums(LevelTick(i));
    NormalTickEntity(s, i.elapsed, i.isRedstoneTick);
  }

  /** Proof step only: the subsystem hook case of ActorOpEffect. */
  lemma ActorSubsystemEffect(s: TickState, sub: Subsystem, e: nat)
    requires Inv(s) && s.status == Normal && s.actor.inProfiling
    ensures ActorOpEffect(s, HookTick(sub, e), SubsystemTick(s, sub, e))
  {
    SingleSums(HookTick(sub, e));
  }

  /** Proof step only: the actor hook case of ActorOpEffect. */
  lemma ActorHookEffect(s: TickState, id: ActorId, e: nat)
    requires Inv(s) && s.status == Normal && s.actor.inProfiling
    ensures ActorOpEffect(s, ActorHookTick(id, e), ActorTick(s, id, e))
  {
    SingleSums(ActorHookTick(id, e));
  }

  /** The first operation of a trace with the actor window open, as the
      state `s1` it leaves for the rest of the trace. */
  lemma ActorFirstOp(s: TickState, ops: seq<Op>) returns (s1: TickState)
    requires Inv(s) && s.status == Normal && s.actor.inProfiling
    requires ops != [] && IsTickOrHook(ops[0])
    ensures ActorOpEffect(s, ops[0], s1)
    ensures RunOps(s, ops) == RunOps(s1, ops[1..])
  {
    s1 := Step(s, ops[0]);
    match ops[0]
    case LevelTick(i) => ActorTickEffect(s, i);
    case HookTick(sub, e) => ActorSubsystemEffect(s, sub, e);
    case ActorHookTick(id, e) => ActorHookEffect(s, id, e);
  }

  /** While fewer than R ticks have passed since the actor window opened with
      R rounds left, whatever hooks fire in between: it stays open, its list
      holds each actor's summed time and count, and nothing is reported. */
  lemma {:induction false} EntityWindowOpenTrace(s: TickState, ops: seq<Op>)
    requires Inv(s) && s.status == Normal && s.actor.inProfiling
    requires OnlyTicksAndHooks(ops) && Ticks(ops) < s.actor.currentRound
    ensures var r := RunOps(s, ops);
      && r.status == Normal && r.actor.inProfiling
      && r.actor.currentRound == s.actor.currentRound - Ticks(ops)
      && ActorAccumulated(s.actor, ops, r.actor)
      && Count(r.reports, IsEntityReport) == Count(s.reports, IsEntityReport)
    decreases |ops|
  {
    if ops == [] {
      assert RunOps(s, ops) == s;
    } else {
      var s1 := ActorFirstOp(s, ops);
      assert OnlyTicksAndHooks(ops[1..]) by {
        forall k | 0 <= k < |ops[1..]| ensures IsTickOrHook(ops[1..][k]) {
          assert ops[1..][k] == ops[k + 1];
        }
      }
      EntityWindowOpenTrace(s1, ops[1..]);
      ActorAccumulatedCons(s.actor, s1.actor, ops, RunOps(s1, ops[1..]).actor);
    }
  }

  /** `r` follows a trace that closed the actor window open in `s`: the window
      is reset, and it was reported once, during the trace, holding every
      Actor::tick the trace measured. */
  ghost predicate EntityClosedAfter(s: TickState, ops: seq<Op>, r: TickState) {
    && r.status == Normal
    && r.actor == s.actor.Cleared()
    && Count(r.reports, IsEntityReport) == Count(s.reports, IsEntityReport) + 1
    && exists k :: |s.reports| <= k < |r.reports| && r.reports[k].EntityReport?
         && r.reports[k].actors.currentRound == 0
         && ActorAccumulated(s.actor, ops, r.reports[k].actors)
  }

  /** The trace ending with the R-th tick since the actor window opened with
      R rounds left, whatever hooks fire in between: that tick reports the
      window exactly once, with all it measured, and resets it. */
  lemma {:induction false} EntityWindowCloseTrace(s: TickState, ops: seq<Op>)
    requires Inv(s) && s.status == Normal && s.actor.inProfiling
    requires OnlyTicksAndHooks(ops) && Ticks(ops) == s.actor.currentRound
    requires ops != [] && ops[|ops| - 1].LevelTick?
    ensures EntityClosedAfter(s, ops, RunOps(s, ops))
    decreases |ops|
  {
    var s1 := ActorFirstOp(s, ops);
    TicksOfLastTick(ops[1..]);
    if ops[0].LevelTick? && s.actor.currentRound == 1 {
      assert ops == [ops[0]];
      EntityClosedLast(s, ops, s1, RunOps(s, ops));
    } else {
      assert OnlyTicksAndHooks(ops[1..]) by {
        forall k | 0 <= k < |ops[1..]| ensures IsTickOrHook(ops[1..][k]) {
          assert ops[1..][k] == ops[k + 1];
        }
      }
      EntityWindowCloseTrace(s1, ops[1..]);
      EntityClosedAfterShift(s, s1, ops, RunOps(s1, ops[1..]), RunOps(s, ops));
    }
  }

  /** Proof step only: the closing tick as a one-element trace. */
  lemma EntityClosedLast(s: TickState, ops: seq<Op>, s1: TickState, r: TickState)
    requires |ops| == 1 && ops[0].LevelTick?
    requires s1.status == Normal && s1.actor == s.actor.Cleared()
    requires Count(s1.reports, IsEntityReport) == Count(s.reports, IsEntityReport) + 1
    requires |s1.reports| > |s.reports|
    requires s1.reports[|s.reports|] == EntityReport(s.actor.(currentRound := 0))
    requires r == s1
    ensures EntityClosedAfter(s, ops, r)
  {
    assert ops == [ops[0]];
    SingleSums(ops[0]);
    var k := |s.reports|;
    assert ActorAccumulated(s.actor, ops, r.reports[k].actors);
  }

  /** Proof step only: a window that the first operation had advanced. */
  lemma EntityClosedAfterShift(s: TickState, s1: TickState, ops: seq<Op>, r: TickState, r': TickState)
    requires ops != []
    requires ActorAccumulated(s.actor, [ops[0]], s1.actor)
    requires Count(s1.reports, IsEntityReport) == Count(s.reports, IsEntityReport)
    requires |s.reports| <= |s1.reports|
    requires EntityClosedAfter(s1, ops[1..], r) && r' == r
    ensures EntityClosedAfter(s, ops, r')
  {
    var k :| |s1.reports| <= k < |r.reports| && r.reports[k].EntityReport?
         && r.reports[k].actors.currentRound == 0
         && ActorAccumulated(s1.actor, ops[1..], r.reports[k].actors);
    ActorAccumulatedCons(s.actor, s1.actor, ops, r.reports[k].actors);
  }
}
