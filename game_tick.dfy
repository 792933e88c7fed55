/** The module-level state of mod/tick/GameTick.cpp as objects whose fields
    the operations update in place, each method proved to do to State() what
    the matching TickSpec function does. */
module GameTick {
  import opened TickState
  import TickSpec

  /** mod::SimpleProfiler: the world profiler's window and accumulators. */
  class SimpleProfiler {
    var inProfiling: bool
    var totalRound: nat
    var currentRound: int
    var serverLevelTickTime: nat
    var dimensionTickTime: nat
    var chunkTickTime: nat
    var chunkRandomTickTime: nat
    var chunkBlockEntityTickTime: nat
    var chunkPendingTickTime: nat
    var redstoneTickTime: nat
    var levelEntitySystemTickTime: nat
    var tickChunkNum: nat

    function Snapshot(): GameProfile
      reads this
    {
      GameProfile(inProfiling, totalRound, currentRound, serverLevelTickTime,
                  dimensionTickTime, chunkTickTime, chunkRandomTickTime,
                  chunkBlockEntityTickTime, chunkPendingTickTime, redstoneTickTime,
                  levelEntitySystemTickTime, tickChunkNum)
    }

    constructor (rounds: nat)
      ensures Snapshot() == GameProfile(false, rounds, 0, 0, 0, 0, 0, 0, 0, 0, 0, 0)
    {
      inProfiling, totalRound, currentRound := false, rounds, 0;
      serverLevelTickTime, dimensionTickTime, chunkTickTime := 0, 0, 0;
      chunkRandomTickTime, chunkBlockEntityTickTime, chunkPendingTickTime := 0, 0, 0;
      redstoneTickTime, levelEntitySystemTickTime, tickChunkNum := 0, 0, 0;
    }

    /** SimpleProfiler::reset, as assumed by GameProfile.Cleared. */
    method Reset()
      modifies this
      ensures totalRound == old(totalRound) && !inProfiling && currentRound == 0
      ensures && serverLevelTickTime == 0 && dimensionTickTime == 0 && chunkTickTime == 0
              && chunkRandomTickTime == 0 && chunkBlockEntityTickTime == 0
              && chunkPendingTickTime == 0 && redstoneTickTime == 0
              && levelEntitySystemTickTime == 0 && tickChunkNum == 0
    {
      inProfiling := false;
      currentRound := 0;
      serverLevelTickTime := 0;
      dimensionTickTime := 0;
      chunkTickTime := 0;
      chunkRandomTickTime := 0;
      chunkBlockEntityTickTime := 0;
      chunkPendingTickTime := 0;
      redstoneTickTime := 0;
      levelEntitySystemTickTime := 0;
      tickChunkNum := 0;
    }
  }

  /** mod::ActorProfiler: the actor profiler's window and its per-actor list. */
  class ActorProfiler {
    var inProfiling: bool
    var totalRound: nat
    var currentRound: int
    var entitiesTickingList: map<ActorId, TickEntry>

    function Snapshot(): ActorProfile
      reads this
    {
      ActorProfile(inProfiling, totalRound, currentRound, entitiesTickingList)
    }

    constructor (rounds: nat)
      ensures Snapshot() == ActorProfile(false, rounds, 0, map[])
    {
      inProfiling, totalRound, currentRound := false, rounds, 0;
      entitiesTickingList := map[];
    }

    /** ActorProfiler::reset, as assumed by ActorProfile.Cleared. */
    method Reset()
      modifies this
      ensures Snapshot() == old(Snapshot()).Cleared()
    {
      inProfiling, currentRound := false, 0;
      entitiesTickingList := map[];
    }
  }

  /** The tick controller: the globals of GameTick.cpp, the counters of the
      host calls it makes (original, lightTick, heavyTick) and the log of the
      reports it emits. */
  class TickController {
    var tickStatus: Status
    var lastTickStats: Status
    var wrapSpeed: nat
    var slowDownTimes: int
    var slowDownCounter: int
    var forwardTickNum: int
    var isMspting: bool
    const gameProfiler: SimpleProfiler
    const actorProfiler: ActorProfiler
    var originalCalls: nat
    var lightTicks: nat
    var heavyTicks: nat
    var reports: seq<Report>

    ghost function State(): TickState
      reads this, gameProfiler, actorProfiler
    {
      TickState(tickStatus, lastTickStats, wrapSpeed, slowDownTimes, slowDownCounter,
                forwardTickNum, isMspting, gameProfiler.Snapshot(), actorProfiler.Snapshot(),
                originalCalls, lightTicks, heavyTicks, reports)
    }

    ghost predicate Valid()
      reads this, gameProfiler, actorProfiler
    {
      Inv(State())
    }

    /** The initial values of the globals (GameTick.cpp:20-28). */
    constructor (worldRounds: nat, actorRounds: nat)
      requires worldRounds >= 1 && actorRounds >= 1
      ensures Valid() && State() == Init(worldRounds, actorRounds)
      ensures fresh(gameProfiler) && fresh(actorProfiler)
    {
      tickStatus, lastTickStats := Normal, Normal;
      wrapSpeed, slowDownTimes, slowDownCounter, forwardTickNum := 1, 1, 0, 0;
      isMspting := false;
      gameProfiler := new SimpleProfiler(worldRounds);
      actorProfiler := new ActorProfiler(actorRounds);
      originalCalls, lightTicks, heavyTicks := 0, 0, 0;
      reports := [];
    }

    method FreezeTick()
      requires Valid()
      modifies this
      ensures Valid() && State() == TickSpec.FreezeTick(old(State()))
    {
      if tickStatus == Normal {
        if tickStatus != Frozen {
          tickStatus := Frozen;
          reports := reports + [Halted];
        } else {
          // "already stopped": the enclosing guard rules this branch out
          assert false;
        }
      }
    }

    method ResetTick()
      requires Valid()
      modifies this
      ensures Valid() && State() == TickSpec.ResetTick(old(State()))
    {
      if tickStatus != Normal {
        tickStatus := Normal;
      }
      reports := reports + [ResetToNormal];
    }

    method WrapTick(speed: nat)
      requires Valid()
      modifies this
      ensures Valid() && State() == TickSpec.WrapTick(old(State()), speed)
    {
      if tickStatus == Normal {
        reports := reports + [WrapStarted(speed)];
        tickStatus := Wrap;
        wrapSpeed := speed;
      } else {
        reports := reports + [WrapRefused];
      }
    }

    method ForwardTick(tickNum: int)
      requires Valid()
      modifies this
      ensures Valid() && State() == TickSpec.ForwardTick(old(State()), tickNum)
    {
      if tickStatus == Frozen || tickStatus == Normal {
        forwardTickNum := tickNum;
        lastTickStats := tickStatus;
        tickStatus := Forward;
        if TickSpec.AsSizeT(tickNum) > 1200 {
          reports := reports + [ForwardStarting(TickSpec.AsSizeT(tickNum))];
        }
      } else {
        reports := reports + [ForwardRefused];
      }
    }

    method SlowTick(slowSpeed: nat)
      requires Valid() && slowSpeed >= 1
      modifies this
      ensures Valid() && State() == TickSpec.SlowTick(old(State()), slowSpeed)
    {
      if tickStatus == Normal {
        reports := reports + [SlowStarted(slowSpeed)];
        tickStatus := Slow;
        slowDownTimes := slowSpeed;
      } else {
        reports := reports + [SlowRefused];
      }
    }

    /** The "tick slow" command's range check. */
    method SlowCommand(arg: int)
      requires Valid()
      modifies this
      ensures Valid() && State() == TickSpec.SlowCommand(old(State()), arg)
    {
      if arg > 1 && arg <= 64 {
        SlowTick(arg);
      } else {
        reports := reports + [SlowRangeError];
      }
    }

    /** The "tick acc" command's range check. */
    method AccCommand(arg: int)
      requires Valid()
      modifies this
      ensures Valid() && State() == TickSpec.AccCommand(old(State()), arg)
    {
      if arg > 1 && arg <= 10 {
        WrapTick(arg);
      } else {
        reports := reports + [AccRangeError];
      }
    }

    method ProfileWorld()
      requires Valid()
      modifies this, gameProfiler
      ensures Valid() && State() == TickSpec.ProfileWorld(old(State()))
    {
      if gameProfiler.inProfiling {
        reports := reports + [ProfilerBusy];
        return;
      }
      if tickStatus != Normal {
        reports := reports + [InaccurateProfile];
      }
      reports := reports + [WorldProfilingStarted];
      gameProfiler.inProfiling := true;
      gameProfiler.currentRound := gameProfiler.totalRound;
    }

    method Mspt()
      requires Valid()
      modifies this
      ensures Valid() && State() == TickSpec.Mspt(old(State()))
    {
      isMspting := true;
    }

    method GetTickStatus() returns (status: Status)
      ensures status == State().status
    {
      status := tickStatus;
    }

    method ProfileEntities()
      requires Valid()
      modifies this, actorProfiler
      ensures Valid() && State() == TickSpec.ProfileEntities(old(State()))
    {
      if actorProfiler.inProfiling {
        reports := reports + [ProfilerBusy];
        return;
      }
      var status := GetTickStatus();
      if status != Normal {
        reports := reports + [InaccurateProfile];
      }
      reports := reports + [EntityProfilingStarted];
      actorProfiler.inProfiling := true;
      actorProfiler.currentRound := actorProfiler.totalRound;
    }

    method QueryStatus() returns (info: StatusInfo)
      ensures info == TickSpec.QueryStatus(State())
    {
      match tickStatus {
        case Frozen => info := FrozenInfo;
        case Normal => info := NormalInfo;
        case Slow => info := SlowInfo(slowDownTimes);
        case Forward => info := ForwardInfo;
        case Wrap => info := WrapInfo(wrapSpeed);
      }
    }

    /** staticWork: one round of the actor profiler's window. */
    method StaticWork()
      requires Valid()
      modifies this, actorProfiler
      ensures Valid() && State() == TickSpec.StaticWork(old(State()))
    {
      if actorProfiler.inProfiling {
        actorProfiler.currentRound := actorProfiler.currentRound - 1;
        if actorProfiler.currentRound == 0 {
          reports := reports + [EntityReport(actorProfiler.Snapshot())];
          actorProfiler.Reset();
        }
      }
    }

    /** The ServerLevel::tick hook. `elapsed` is what TIMER_START/TIMER_END
        measure around the Normal step; `isRedstoneTick` is the host's answer
        for dimension 0. */
    method Tick(elapsed: nat, isRedstoneTick: bool)
      requires Valid()
      modifies this, gameProfiler, actorProfiler
      ensures Valid() && State() == TickSpec.Tick(old(State()), elapsed, isRedstoneTick)
    {
      match tickStatus {
        case Frozen =>
          return;
        case Normal =>
          NormalStep(elapsed, isRedstoneTick);
        case Slow =>
          SlowStep();
        case Forward =>
          ForwardBurst();
        case Wrap =>
          WrapBurst();
      }
    }

    /** The Normal branch: one full step, timed when a profile or an mspt
        sample is pending. */
    method NormalStep(elapsed: nat, isRedstoneTick: bool)
      requires Valid() && tickStatus == Normal
      modifies this, gameProfiler, actorProfiler
      ensures Valid() && State() == TickSpec.Tick(old(State()), elapsed, isRedstoneTick)
    {
      if gameProfiler.inProfiling || isMspting {
        TimedStep(elapsed, isRedstoneTick);
      } else {
        FullStep();
      }
    }

    /** original, lightTick, heavyTick and staticWork, once each. */
    method FullStep()
      requires Valid()
      modifies this, actorProfiler
      ensures Valid() && State() == TickSpec.FullStep(old(State()))
    {
      originalCalls := originalCalls + 1;
      lightTicks := lightTicks + 1;
      heavyTicks := heavyTicks + 1;
      StaticWork();
    }

    /** sendMsptInfo on the measured step, once per mspt command. */
    method SampleMspt(elapsed: nat, isRedstoneTick: bool)
      requires Valid()
      modifies this
      ensures Valid() && State() == TickSpec.SampleMspt(old(State()), elapsed, isRedstoneTick)
    {
      if isMspting {
        reports := reports + [MsptSample(TickSpec.SendMsptInfo(elapsed, isRedstoneTick))];
        isMspting := false;
      }
    }

    /** The timed Normal step, followed by the mspt sample and the world
        profiler's round that consume its measured time. */
    method TimedStep(elapsed: nat, isRedstoneTick: bool)
      requires Valid() && tickStatus == Normal && (gameProfiler.inProfiling || isMspting)
      modifies this, gameProfiler, actorProfiler
      ensures Valid() && State() == TickSpec.NormalTick(old(State()), elapsed, isRedstoneTick)
    {
      FullStep();
      SampleMspt(elapsed, isRedstoneTick);
      if gameProfiler.inProfiling {
        WorldRound(elapsed);
      }
    }

    /** The world profiler's share of a timed Normal step. */
    method WorldRound(elapsed: nat)
      requires Valid() && gameProfiler.inProfiling
      modifies this, gameProfiler
      ensures Valid() && State() == TickSpec.WorldRound(old(State()), elapsed)
    {
      gameProfiler.serverLevelTickTime := gameProfiler.serverLevelTickTime + elapsed;
      gameProfiler.currentRound := gameProfiler.currentRound - 1;
      if gameProfiler.currentRound == 0 {
        gameProfiler.inProfiling := false;
        reports := reports + [WorldReport(gameProfiler.Snapshot())];
        gameProfiler.Reset();
      }
    }

    /** The Slow branch: a step only on every slowDownTimes-th hook call. */
    method SlowStep()
      requires Valid() && tickStatus == Slow
      modifies this
      ensures Valid() && State() == TickSpec.Tick(old(State()), 0, false)
    {
      if slowDownCounter % slowDownTimes == 0 {
        originalCalls := originalCalls + 1;
        lightTicks := lightTicks + 1;
        heavyTicks := heavyTicks + 1;
      }
      slowDownCounter := (slowDownCounter + 1) % slowDownTimes;
    }

    /** The Forward branch: the whole burst in one hook call, then back to
        the saved status. */
    method ForwardBurst()
      requires Valid() && tickStatus == Forward
      modifies this
      ensures Valid() && State() == TickSpec.Tick(old(State()), 0, false)
    {
      ghost var s0 := State();
      var i := 0;
      while i < forwardTickNum
        invariant 0 <= i <= TickSpec.ForwardSteps(s0.forwardTickNum)
        invariant State() == s0.(originalCalls := s0.originalCalls + i, lightTicks := s0.lightTicks + i)
      {
        originalCalls := originalCalls + 1;
        lightTicks := lightTicks + 1;
        i := i + 1;
      }
      reports := reports + [ForwardElapsed(forwardTickNum)];
      forwardTickNum := 0;
      tickStatus := lastTickStats;
    }

    /** The Wrap branch: wrapSpeed steps without heavyTick, then one heavyTick. */
    method WrapBurst()
      requires Valid() && tickStatus == Wrap
      modifies this
      ensures Valid() && State() == TickSpec.Tick(old(State()), 0, false)
    {
      ghost var s0 := State();
      for i := 0 to wrapSpeed
        invariant State() == s0.(originalCalls := s0.originalCalls + i, lightTicks := s0.lightTicks + i)
      {
        originalCalls := originalCalls + 1;
        lightTicks := lightTicks + 1;
      }
      heavyTicks := heavyTicks + 1;
    }

    /** The profiling hooks of the seven world subsystems. */
    method SubsystemTick(sub: Subsystem, elapsed: nat)
      requires Valid()
      modifies gameProfiler
      ensures Valid() && State() == TickSpec.SubsystemTick(old(State()), sub, elapsed)
    {
      if gameProfiler.inProfiling {
        match sub {
          case Dimension =>
            gameProfiler.dimensionTickTime := gameProfiler.dimensionTickTime + elapsed;
          case Chunk =>
            gameProfiler.chunkTickTime := gameProfiler.chunkTickTime + elapsed;
            gameProfiler.tickChunkNum := gameProfiler.tickChunkNum + 1;
          case ChunkRandomTick =>
            gameProfiler.chunkRandomTickTime := gameProfiler.chunkRandomTickTime + elapsed;
          case ChunkBlockEntity =>
            gameProfiler.chunkBlockEntityTickTime := gameProfiler.chunkBlockEntityTickTime + elapsed;
          case ChunkPendingTick =>
            gameProfiler.chunkPendingTickTime := gameProfiler.chunkPendingTickTime + elapsed;
          case Redstone =>
            gameProfiler.redstoneTickTime := gameProfiler.redstoneTickTime + elapsed;
          case EntitySystem =>
            gameProfiler.levelEntitySystemTickTime := gameProfiler.levelEntitySystemTickTime + elapsed;
        }
      }
    }

    /** The Actor::tick hook. */
    method ActorTick(id: ActorId, elapsed: nat)
      requires Valid()
      modifies actorProfiler
      ensures Valid() && State() == TickSpec.ActorTick(old(State()), id, elapsed)
    {
      if actorProfiler.inProfiling {
        var entry := EntryOf(actorProfiler.entitiesTickingList, id);
        actorProfiler.entitiesTickingList :=
          actorProfiler.entitiesTickingList[id := entry.(time := entry.time + elapsed)];
        entry := actorProfiler.entitiesTickingList[id];
        actorProfiler.entitiesTickingList :=
          actorProfiler.entitiesTickingList[id := entry.(count := entry.count + 1)];
      }
    }
  }
}
