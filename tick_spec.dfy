/** The operations of mod/tick/GameTick.cpp as functions on TickState: the
    operator commands, the command-layer range checks, the ServerLevel::tick
    dispatch and the profiling hooks. Each function states what it does to the
    state in its contract; GameTick.TickController is proved against them. */
module TickSpec {
  import opened TickState

  /** 2^64: size_t on the 64-bit host. */
  const SizeTModulus: int := 0x1_0000_0000_0000_0000

  /** The conversion of a command's int argument to size_t. */
  function AsSizeT(n: int): (r: nat)
    ensures r < SizeTModulus
    ensures 0 <= n < SizeTModulus ==> r == n
    ensures n < 0 && -SizeTModulus <= n ==> r == n + SizeTModulus
  {
    n % SizeTModulus
  }

  /** The number of times the Forward loop `for (i = 0; i < forwardTickNum; i++)`
      runs. */
  function ForwardSteps(n: int): (r: nat)
    ensures n <= 0 ==> r == 0
    ensures n >= 0 ==> r == n
  {
    if n < 0 then 0 else n
  }

  // ---------------------------------------------------------------------
  // Operator commands

  /** freezeTick: only a Normal world is frozen. From any other status,
      Frozen included, nothing happens and nothing is said (the source's
      "already stopped" branch sits under the Normal guard and is dead). */
  function FreezeTick(s: TickState): (r: TickState)
    requires Inv(s)
    ensures Inv(r)
    ensures r.status == Frozen <==> s.status == Normal || s.status == Frozen
    ensures s.status != Normal ==> r == s
    ensures r == s.(status := r.status, reports := r.reports)
    ensures r.reports == s.reports + (if s.status == Normal then [Halted] else [])
  {
    if s.status == Normal then
      s.(status := Frozen, reports := s.reports + [Halted])
    else
      s
  }

  /** resetTick: Normal from every status; the Forward count, the saved
      status, the slow-down counter and the profilers are left as they are. */
  function ResetTick(s: TickState): (r: TickState)
    requires Inv(s)
    ensures Inv(r)
    ensures r.status == Normal
    ensures r == s.(status := Normal, reports := r.reports)
    ensures r.reports == s.reports + [ResetToNormal]
  {
    s.(status := Normal, reports := s.reports + [ResetToNormal])
  }

  /** wrapTick: accepted only in Normal; a refusal changes nothing but the log. */
  function WrapTick(s: TickState, speed: nat): (r: TickState)
    requires Inv(s)
    ensures Inv(r)
    ensures s.status == Normal ==>
      && r.status == Wrap && r.wrapSpeed == speed
      && r == s.(status := Wrap, wrapSpeed := speed, reports := r.reports)
      && r.reports == s.reports + [WrapStarted(speed)]
    ensures s.status != Normal ==> r == s.(reports := s.reports + [WrapRefused])
  {
    if s.status == Normal then
      s.(status := Wrap, wrapSpeed := speed, reports := s.reports + [WrapStarted(speed)])
    else
      s.(reports := s.reports + [WrapRefused])
  }

  /** forwardTick: accepted only from Frozen or Normal, which it saves as the
      status to return to; the count is not validated. The tickNum > 1200
      notice compares the size_t value, so a negative count also triggers it. */
  function ForwardTick(s: TickState, tickNum: int): (r: TickState)
    requires Inv(s)
    ensures Inv(r)
    ensures s.status == Normal || s.status == Frozen ==>
      && r.status == Forward && r.lastStatus == s.status && r.forwardTickNum == tickNum
      && r == s.(status := Forward, lastStatus := s.status, forwardTickNum := tickNum, reports := r.reports)
      && r.reports == s.reports + (if AsSizeT(tickNum) > 1200 then [ForwardStarting(AsSizeT(tickNum))] else [])
    ensures s.status != Normal && s.status != Frozen ==>
      r == s.(reports := s.reports + [ForwardRefused])
  {
    if s.status == Frozen || s.status == Normal then
      var notice := if AsSizeT(tickNum) > 1200 then [ForwardStarting(AsSizeT(tickNum))] else [];
      s.(forwardTickNum := tickNum, lastStatus := s.status, status := Forward,
         reports := s.reports + notice)
    else
      s.(reports := s.reports + [ForwardRefused])
  }

  /** slowTick: accepted only in Normal. The slow-down counter is NOT reset,
      so a count left over from an earlier Slow carries into the new one. The
      divisor must be positive: the source's only caller passes 2..64. */
  function SlowTick(s: TickState, slowSpeed: nat): (r: TickState)
    requires Inv(s)
    requires slowSpeed >= 1
    ensures Inv(r)
    ensures s.status == Normal ==>
      && r.status == Slow && r.slowDownTimes == slowSpeed
      && r.slowDownCounter == s.slowDownCounter
      && r == s.(status := Slow, slowDownTimes := slowSpeed, reports := r.reports)
      && r.reports == s.reports + [SlowStarted(slowSpeed)]
    ensures s.status != Normal ==> r == s.(reports := s.reports + [SlowRefused])
  {
    if s.status == Normal then
      s.(status := Slow, slowDownTimes := slowSpeed, reports := s.reports + [SlowStarted(slowSpeed)])
    else
      s.(reports := s.reports + [SlowRefused])
  }

  /** "tick slow <n>": only 2..64 reaches slowTick; any other value is an
      error to the player and changes nothing. */
  function SlowCommand(s: TickState, arg: int): (r: TickState)
    requires Inv(s)
    ensures Inv(r)
    ensures 1 < arg <= 64 ==> r == SlowTick(s, arg)
    ensures !(1 < arg <= 64) ==> r == s.(reports := s.reports + [SlowRangeError])
    ensures r.status == Slow && s.status != Slow ==> 2 <= r.slowDownTimes <= 64 && r.slowDownTimes == arg
  {
    if 1 < arg <= 64 then SlowTick(s, arg) else s.(reports := s.reports + [SlowRangeError])
  }

  /** "tick acc <n>": only 2..10 reaches wrapTick. */
  function AccCommand(s: TickState, arg: int): (r: TickState)
    requires Inv(s)
    ensures Inv(r)
    ensures 1 < arg <= 10 ==> r == WrapTick(s, arg)
    ensures !(1 < arg <= 10) ==> r == s.(reports := s.reports + [AccRangeError])
    ensures r.status == Wrap && s.status != Wrap ==> 2 <= r.wrapSpeed <= 10 && r.wrapSpeed == arg
  {
    if 1 < arg <= 10 then WrapTick(s, arg) else s.(reports := s.reports + [AccRangeError])
  }

  /** profileWorld: refused while a window is open (the open window is left
      untouched); otherwise opens a window of totalRound rounds, with a
      warning, but no refusal, when the world is not Normal. */
  function ProfileWorld(s: TickState): (r: TickState)
    requires Inv(s)
    ensures Inv(r)
    ensures r.game.inProfiling
    ensures s.game.inProfiling ==> r == s.(reports := s.reports + [ProfilerBusy])
    ensures !s.game.inProfiling ==>
      && r.game == s.game.(inProfiling := true, currentRound := s.game.totalRound)
      && r.game.IsClear()
      && r == s.(game := r.game, reports := r.reports)
      && r.reports == s.reports + (if s.status != Normal then [InaccurateProfile] else []) + [WorldProfilingStarted]
  {
    if s.game.inProfiling then
      s.(reports := s.reports + [ProfilerBusy])
    else
      var warning := if s.status != Normal then [InaccurateProfile] else [];
      s.(game := s.game.(inProfiling := true, currentRound := s.game.totalRound),
         reports := s.reports + warning + [WorldProfilingStarted])
  }

  /** profileEntities: the same protocol for the actor profiler. */
  function ProfileEntities(s: TickState): (r: TickState)
    requires Inv(s)
    ensures Inv(r)
    ensures r.actor.inProfiling
    ensures s.actor.inProfiling ==> r == s.(reports := s.reports + [ProfilerBusy])
    ensures !s.actor.inProfiling ==>
      && r.actor == s.actor.(inProfiling := true, currentRound := s.actor.totalRound)
      && r.actor.entitiesTickingList == map[]
      && r == s.(actor := r.actor, reports := r.reports)
      && r.reports == s.reports + (if s.status != Normal then [InaccurateProfile] else []) + [EntityProfilingStarted]
  {
    if s.actor.inProfiling then
      s.(reports := s.reports + [ProfilerBusy])
    else
      var warning := if s.status != Normal then [InaccurateProfile] else [];
      s.(actor := s.actor.(inProfiling := true, currentRound := s.actor.totalRound),
         reports := s.reports + warning + [EntityProfilingStarted])
  }

  /** mspt: arms the one-shot sampler and does nothing else. */
  function Mspt(s: TickState): (r: TickState)
    requires Inv(s)
    ensures Inv(r)
    ensures r.isMspting
    ensures r == s.(isMspting := r.isMspting)
  {
    s.(isMspting := true)
  }

  /** The status a StatusInfo describes. */
  function StatusOf(info: StatusInfo): Status {
    match info
    case FrozenInfo => Frozen
    case NormalInfo => Normal
    case SlowInfo(_) => Slow
    case ForwardInfo => Forward
    case WrapInfo(_) => Wrap
  }

  /** queryStatus: names the active status, with the factor for Slow and Wrap. */
  function QueryStatus(s: TickState): (r: StatusInfo)
    ensures StatusOf(r) == s.status
    ensures r.SlowInfo? ==> r.times == s.slowDownTimes
    ensures r.WrapInfo? ==> r.speed == s.wrapSpeed
  {
    match s.status
    case Frozen => FrozenInfo
    case Normal => NormalInfo
    case Slow => SlowInfo(s.slowDownTimes)
    case Forward => ForwardInfo
    case Wrap => WrapInfo(s.wrapSpeed)
  }

  // ---------------------------------------------------------------------
  // The tick

  /** 1000000 / time is the truncation of 1000.0 / mspt, and lies below 20
      once the step takes longer than 50 ms. */
  lemma TpsBelowTwenty(time: nat)
    requires time > 50000
    ensures 0 <= 1000000 / time < 20
    ensures (1000000 / time) * time <= 1000000 < (1000000 / time + 1) * time
  {
    var q := 1000000 / time;
    assert q * time + 1000000 % time == 1000000;
    assert q * time < 20 * time;
    ProductBelow(q, 20, time);
  }

  /** Cancelling a positive factor on both sides of a strict inequality. */
  lemma ProductBelow(a: int, b: int, c: int)
    requires c > 0 && a * c < b * c
    ensures a < b
  {
  }

  /** sendMsptInfo over integer microseconds: mspt = time / 1000, so
      mspt <= 50 is time <= 50000 and 1000.0 / mspt truncated is
      1000000 / time. */
  function SendMsptInfo(time: nat, isRedstoneTick: bool): (r: MsptInfo)
    ensures r.time == time && r.redstoneTick == isRedstoneTick
    ensures r.tps == 20 <==> time <= 50000
    ensures time > 50000 ==> 0 <= r.tps < 20 && r.tps * time <= 1000000 < (r.tps + 1) * time
    ensures r.colour == White <==> time <= 40000
    ensures r.colour == Yellow <==> 40000 < time < 50000
    ensures r.colour == Red <==> time >= 50000
  {
    var tps := if time <= 50000 then 20 else (TpsBelowTwenty(time); 1000000 / time);
    var colour := if time > 40000 then (if time >= 50000 then Red else Yellow) else White;
    MsptInfo(time, tps, colour, isRedstoneTick)
  }

  /** staticWork: one round of the actor profiler's window; the window is
      printed and reset when its last round passes. */
  function StaticWork(s: TickState): (r: TickState)
    requires Inv(s)
    ensures Inv(r)
    ensures r == s.(actor := r.actor, reports := r.reports) && s.reports <= r.reports
    ensures !s.actor.inProfiling ==> r == s
    ensures s.actor.inProfiling && s.actor.currentRound > 1 ==>
      r == s.(actor := s.actor.(currentRound := s.actor.currentRound - 1))
    ensures s.actor.inProfiling && s.actor.currentRound == 1 ==>
      && r.actor == s.actor.Cleared()
      && r == s.(actor := r.actor, reports := r.reports)
      && r.reports == s.reports + [EntityReport(s.actor.(currentRound := 0))]
  {
    if s.actor.inProfiling then
      var a := s.actor.(currentRound := s.actor.currentRound - 1);
      if a.currentRound == 0 then
        s.(actor := a.Cleared(), reports := s.reports + [EntityReport(a)])
      else
        s.(actor := a)
    else
      s
  }

  /** The world profiler's share of a timed Normal step: the step's time goes
      to serverLevelTickTime and one round passes; after the last round the
      window closes, is printed and reset. */
  function WorldRound(s: TickState, elapsed: nat): (r: TickState)
    requires Inv(s) && s.game.inProfiling
    ensures Inv(r)
    ensures r == s.(game := r.game, reports := r.reports) && s.reports <= r.reports
    ensures s.game.currentRound > 1 ==>
      r == s.(game := s.game.(currentRound := s.game.currentRound - 1,
                              serverLevelTickTime := s.game.serverLevelTickTime + elapsed))
    ensures s.game.currentRound == 1 ==>
      && r.game == s.game.Cleared()
      && r == s.(game := r.game, reports := r.reports)
      && r.reports == s.reports + [WorldReport(s.game.(inProfiling := false, currentRound := 0,
                                     serverLevelTickTime := s.game.serverLevelTickTime + elapsed))]
  {
    var g := s.game.(serverLevelTickTime := s.game.serverLevelTickTime + elapsed,
                     currentRound := s.game.currentRound - 1);
    if g.currentRound == 0 then
      var closed := g.(inProfiling := false);
      s.(game := closed.Cleared(), reports := s.reports + [WorldReport(closed)])
    else
      s.(game := g)
  }

  /** One full step of the Normal branch: original, lightTick and heavyTick
      once each, then staticWork. */
  function FullStep(s: TickState): (r: TickState)
    requires Inv(s)
    ensures Inv(r)
    ensures r == s.(originalCalls := s.originalCalls + 1, lightTicks := s.lightTicks + 1,
                    heavyTicks := s.heavyTicks + 1, actor := r.actor, reports := r.reports)
    ensures s.reports <= r.reports
    ensures r == StaticWork(s.(originalCalls := s.originalCalls + 1,
                               lightTicks := s.lightTicks + 1,
                               heavyTicks := s.heavyTicks + 1))
  {
    StaticWork(s.(originalCalls := s.originalCalls + 1,
                  lightTicks := s.lightTicks + 1,
                  heavyTicks := s.heavyTicks + 1))
  }

  /** The one-shot mspt report: when armed, the measured step is broadcast
      and the flag is cleared; otherwise nothing happens. */
  function SampleMspt(s: TickState, elapsed: nat, isRedstoneTick: bool): (r: TickState)
    requires Inv(s)
    ensures Inv(r)
    ensures r == s.(reports := r.reports, isMspting := false) && s.reports <= r.reports
    ensures s.isMspting ==>
      r == s.(reports := s.reports + [MsptSample(SendMsptInfo(elapsed, isRedstoneTick))], isMspting := false)
    ensures !s.isMspting ==> r == s
  {
    if s.isMspting then
      s.(reports := s.reports + [MsptSample(SendMsptInfo(elapsed, isRedstoneTick))], isMspting := false)
    else s
  }

  /** The Normal branch of the ServerLevel::tick hook: a full step; then,
      from its measured time, the pending mspt sample and the world
      profiler's round. */
  function NormalTick(s: TickState, elapsed: nat, isRedstoneTick: bool): (r: TickState)
    requires Inv(s) && s.status == Normal
    ensures Inv(r)
    ensures s.reports <= r.reports
    ensures r.status == Normal && !r.isMspting
    ensures && r.lastStatus == s.lastStatus && r.wrapSpeed == s.wrapSpeed
            && r.slowDownTimes == s.slowDownTimes && r.slowDownCounter == s.slowDownCounter
            && r.forwardTickNum == s.forwardTickNum
    ensures r.originalCalls == s.originalCalls + 1 && r.lightTicks == s.lightTicks + 1
            && r.heavyTicks == s.heavyTicks + 1
  {
    var sampled := SampleMspt(FullStep(s), elapsed, isRedstoneTick);
    if s.game.inProfiling then WorldRound(sampled, elapsed) else sampled
  }

  /** The ServerLevel::tick hook. `elapsed` is the measured duration of the
      timed Normal step and `isRedstoneTick` the host's answer for it; both
      are read only when the source measures or asks.
      Frozen runs nothing; Normal runs one original/lightTick/heavyTick and
      staticWork, consumes the mspt flag and advances the world window; Slow
      runs one step when the counter is a multiple of the factor; Forward
      runs the whole burst without heavyTick and returns to the saved status;
      Wrap runs wrapSpeed original/lightTick and one heavyTick. */
  function Tick(s: TickState, elapsed: nat, isRedstoneTick: bool): (r: TickState)
    requires Inv(s)
    ensures Inv(r)
    ensures s.reports <= r.reports
    ensures s.status == Frozen ==> r == s
    ensures s.status != Forward ==> r.status == s.status
    ensures r.lastStatus == s.lastStatus && r.wrapSpeed == s.wrapSpeed && r.slowDownTimes == s.slowDownTimes
    ensures s.status == Normal ==>
      r.originalCalls == s.originalCalls + 1 && r.lightTicks == s.lightTicks + 1 && r.heavyTicks == s.heavyTicks + 1
    ensures s.status == Wrap ==>
      && r.originalCalls == s.originalCalls + s.wrapSpeed && r.lightTicks == s.lightTicks + s.wrapSpeed
      && r.heavyTicks == s.heavyTicks + 1
    ensures s.status == Slow ==>
      var ran := if s.slowDownCounter % s.slowDownTimes == 0 then 1 else 0;
      && r.originalCalls == s.originalCalls + ran && r.lightTicks == s.lightTicks + ran
      && r.heavyTicks == s.heavyTicks + ran
      && r.slowDownCounter == (s.slowDownCounter + 1) % s.slowDownTimes
      && 0 <= r.slowDownCounter < s.slowDownTimes
    ensures s.status == Forward ==>
      && r.status == s.lastStatus && r.status != Forward && r.forwardTickNum == 0
      && r.originalCalls == s.originalCalls + ForwardSteps(s.forwardTickNum)
      && r.lightTicks == s.lightTicks + ForwardSteps(s.forwardTickNum)
      && r.heavyTicks == s.heavyTicks
      && r.reports == s.reports + [ForwardElapsed(s.forwardTickNum)]
    ensures s.status != Normal ==> r.game == s.game && r.actor == s.actor
    ensures r.isMspting == (s.isMspting && s.status != Normal)
    ensures s.status != Normal && s.status != Forward ==> r.reports == s.reports
    ensures s.status != Forward ==> r.forwardTickNum == s.forwardTickNum
    ensures s.status != Slow ==> r.slowDownCounter == s.slowDownCounter
  {
    match s.status
    case Frozen => s
    case Normal => NormalTick(s, elapsed, isRedstoneTick)
    case Slow =>
      var ran := if s.slowDownCounter % s.slowDownTimes == 0 then 1 else 0;
      s.(originalCalls := s.originalCalls + ran,
         lightTicks := s.lightTicks + ran,
         heavyTicks := s.heavyTicks + ran,
         slowDownCounter := (s.slowDownCounter + 1) % s.slowDownTimes)
    case Forward =>
      var n := ForwardSteps(s.forwardTickNum);
      s.(originalCalls := s.originalCalls + n,
         lightTicks := s.lightTicks + n,
         reports := s.reports + [ForwardElapsed(s.forwardTickNum)],
         forwardTickNum := 0,
         status := s.lastStatus)
    case Wrap =>
      s.(originalCalls := s.originalCalls + s.wrapSpeed,
         lightTicks := s.lightTicks + s.wrapSpeed,
         heavyTicks := s.heavyTicks + 1)
  }

  // ---------------------------------------------------------------------
  // Profiling hooks

  /** The hooks of Dimension::tick, LevelChunk::tick, tickBlocks,
      tickBlockEntities, tickPendingTicks, tickRedstone and
      EntitySystems::tick: while the world profiler is open, the subsystem's
      own accumulator grows by the measured time (and the chunk hook also
      counts the chunk); nothing else changes, and nothing at all when the
      profiler is closed. */
  function SubsystemTick(s: TickState, sub: Subsystem, elapsed: nat): (r: TickState)
    requires Inv(s)
    ensures Inv(r)
    ensures !s.game.inProfiling ==> r == s
    ensures r == s.(game := r.game)
    ensures forall b: Subsystem :: r.game.Bucket(b) == s.game.Bucket(b) + (if s.game.inProfiling && b == sub then elapsed else 0)
    ensures r.game.tickChunkNum == s.game.tickChunkNum + (if s.game.inProfiling && sub == Chunk then 1 else 0)
    ensures && r.game.inProfiling == s.game.inProfiling && r.game.currentRound == s.game.currentRound
            && r.game.totalRound == s.game.totalRound
            && r.game.serverLevelTickTime == s.game.serverLevelTickTime
  {
    var g := s.game;
    if !g.inProfiling then s
    else
      var g' := match sub
        case Dimension => g.(dimensionTickTime := g.dimensionTickTime + elapsed)
        case Chunk => g.(chunkTickTime := g.chunkTickTime + elapsed, tickChunkNum := g.tickChunkNum + 1)
        case ChunkRandomTick => g.(chunkRandomTickTime := g.chunkRandomTickTime + elapsed)
        case ChunkBlockEntity => g.(chunkBlockEntityTickTime := g.chunkBlockEntityTickTime + elapsed)
        case ChunkPendingTick => g.(chunkPendingTickTime := g.chunkPendingTickTime + elapsed)
        case Redstone => g.(redstoneTickTime := g.redstoneTickTime + elapsed)
        case EntitySystem => g.(levelEntitySystemTickTime := g.levelEntitySystemTickTime + elapsed);
      s.(game := g')
  }

  /** The Actor::tick hook: while the actor profiler is open, the actor's
      entry gains the measured time and one count; every other entry and
      every other field are unchanged. */
  function ActorTick(s: TickState, id: ActorId, elapsed: nat): (r: TickState)
    requires Inv(s)
    ensures Inv(r)
    ensures !s.actor.inProfiling ==> r == s
    ensures r == s.(actor := r.actor)
    ensures r.actor == s.actor.(entitiesTickingList := r.actor.entitiesTickingList)
    ensures s.actor.inProfiling ==>
      && r.actor.entitiesTickingList.Keys == s.actor.entitiesTickingList.Keys + {id}
      && EntryOf(r.actor.entitiesTickingList, id).time == EntryOf(s.actor.entitiesTickingList, id).time + elapsed
      && EntryOf(r.actor.entitiesTickingList, id).count == EntryOf(s.actor.entitiesTickingList, id).count + 1
    ensures forall other :: other != id ==>
      EntryOf(r.actor.entitiesTickingList, other) == EntryOf(s.actor.entitiesTickingList, other)
  {
    if !s.actor.inProfiling then s
    else
      var m := s.actor.entitiesTickingList;
      var e := EntryOf(m, id);
      s.(actor := s.actor.(entitiesTickingList := m[id := TickEntry(e.time + elapsed, e.count + 1)]))
  }
}
