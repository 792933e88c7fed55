/** The state of the tick-rate controller of mod/tick/GameTick.cpp, as values.
    The module-level globals of the source (tick status, slow-down and forward
    counters, the one-shot mspt flag and the two profilers) are gathered in one
    TickState, together with counters of the host calls the controller makes
    and the log of the reports it emits. */
module TickState {

  /** Actor identifiers, as returned by the host's getActorId. */
  type ActorId = string

  /** WorldTickStatus. */
  datatype Status = Normal | Frozen | Slow | Wrap | Forward

  /** The subsystems whose ticks the world profiler times, one per hook. */
  datatype Subsystem =
    | Dimension
    | Chunk
    | ChunkRandomTick
    | ChunkBlockEntity
    | ChunkPendingTick
    | Redstone
    | EntitySystem

  /** The fields of the world profiler (gameProfiler, a SimpleProfiler);
      durations are in microseconds. */
  datatype GameProfile = GameProfile(
    inProfiling: bool,
    totalRound: nat,
    currentRound: int,
    serverLevelTickTime: nat,
    dimensionTickTime: nat,
    chunkTickTime: nat,
    chunkRandomTickTime: nat,
    chunkBlockEntityTickTime: nat,
    chunkPendingTickTime: nat,
    redstoneTickTime: nat,
    levelEntitySystemTickTime: nat,
    tickChunkNum: nat)
  {
    /** The accumulator that the hook of `sub` adds to. */
    function Bucket(sub: Subsystem): nat {
      match sub
      case Dimension => dimensionTickTime
      case Chunk => chunkTickTime
      case ChunkRandomTick => chunkRandomTickTime
      case ChunkBlockEntity => chunkBlockEntityTickTime
      case ChunkPendingTick => chunkPendingTickTime
      case Redstone => redstoneTickTime
      case EntitySystem => levelEntitySystemTickTime
    }

    /** Every accumulator is zero. */
    predicate IsClear() {
      && serverLevelTickTime == 0
      && dimensionTickTime == 0
      && chunkTickTime == 0
      && chunkRandomTickTime == 0
      && chunkBlockEntityTickTime == 0
      && chunkPendingTickTime == 0
      && redstoneTickTime == 0
      && levelEntitySystemTickTime == 0
      && tickChunkNum == 0
    }

    /** SimpleProfiler::reset (its body is not part of this model; assumed to
        clear the accumulators and the window and to keep the window length). */
    function Cleared(): (p: GameProfile)
      ensures !p.inProfiling && p.IsClear() && p.totalRound == totalRound
    {
      GameProfile(false, totalRound, 0, 0, 0, 0, 0, 0, 0, 0, 0, 0)
    }
  }

  /** One entry of entitiesTickingList: accumulated time and tick count. */
  datatype TickEntry = TickEntry(time: nat, count: nat)

  /** The fields of the actor profiler (ActorProfiler). */
  datatype ActorProfile = ActorProfile(
    inProfiling: bool,
    totalRound: nat,
    currentRound: int,
    entitiesTickingList: map<ActorId, TickEntry>)
  {
    /** ActorProfiler::reset (its body is not part of this model; assumed to
        empty the list and close the window, keeping the window length). */
    function Cleared(): (p: ActorProfile)
      ensures !p.inProfiling && p.entitiesTickingList == map[] && p.totalRound == totalRound
    {
      ActorProfile(false, totalRound, 0, map[])
    }
  }

  /** The entry that `operator[]` yields for `id`: a default-constructed one
      when the id is not yet in the list. */
  function EntryOf(m: map<ActorId, TickEntry>, id: ActorId): TickEntry {
    if id in m then m[id] else TickEntry(0, 0)
  }

  /** The colour of the mspt and tps figures in an mspt report. */
  datatype Colour = White | Yellow | Red

  /** The content of the mspt broadcast: the measured step in microseconds,
      the derived tps, its colour, and whether the step was a redstone tick. */
  datatype MsptInfo = MsptInfo(time: nat, tps: int, colour: Colour, redstoneTick: bool)

  /** The messages the controller emits, abstracted from their text. */
  datatype Report =
    | Halted                            // freezeTick: the world stopped
    | ResetToNormal                     // resetTick
    | WrapStarted(speed: nat)           // wrapTick accepted
    | WrapRefused                       // wrapTick outside Normal
    | ForwardStarting(remaining: nat)   // forwardTick with more than 1200 ticks
    | ForwardRefused                    // forwardTick outside Normal and Frozen
    | SlowStarted(factor: nat)          // slowTick accepted
    | SlowRefused                       // slowTick outside Normal
    | SlowRangeError                    // "tick slow" argument outside [2, 64]
    | AccRangeError                     // "tick acc" argument outside [2, 10]
    | ProfilerBusy                      // a profiling window is already open
    | InaccurateProfile                 // profiling started outside Normal
    | WorldProfilingStarted
    | EntityProfilingStarted
    | MsptSample(info: MsptInfo)        // sendMsptInfo
    | ForwardElapsed(ticks: int)        // "%d gt passed" after a Forward burst
    | WorldReport(game: GameProfile)    // gameProfiler.print
    | EntityReport(actors: ActorProfile) // actorProfiler.print

  /** What queryStatus tells the player. */
  datatype StatusInfo =
    | FrozenInfo
    | NormalInfo
    | SlowInfo(times: int)
    | ForwardInfo
    | WrapInfo(speed: nat)

  /** The whole controller: the globals of GameTick.cpp, the host-call
      counters (original, lightTick, heavyTick) and the report log. */
  datatype TickState = TickState(
    status: Status,
    lastStatus: Status,
    wrapSpeed: nat,
    slowDownTimes: int,
    slowDownCounter: int,
    forwardTickNum: int,
    isMspting: bool,
    game: GameProfile,
    actor: ActorProfile,
    originalCalls: nat,
    lightTicks: nat,
    heavyTicks: nat,
    reports: seq<Report>)

  /** A profiling window is open for between one and totalRound more rounds,
      and a closed window holds no measurements. */
  predicate WorldWindowOk(p: GameProfile) {
    && p.totalRound >= 1
    && (p.inProfiling ==> 1 <= p.currentRound <= p.totalRound)
    && (!p.inProfiling ==> p.IsClear())
  }

  predicate ActorWindowOk(p: ActorProfile) {
    && p.totalRound >= 1
    && (p.inProfiling ==> 1 <= p.currentRound <= p.totalRound)
    && (!p.inProfiling ==> p.entitiesTickingList == map[])
  }

  /** The invariant the operations keep: the status saved by forwardTick is
      never Forward (no nested Forward), the slow-down divisor is positive and
      the counter non-negative (so the modulo of the Slow branch is defined),
      and both profiling windows are consistent. */
  predicate Inv(s: TickState) {
    && s.lastStatus != Forward
    && s.slowDownTimes >= 1
    && s.slowDownCounter >= 0
    && WorldWindowOk(s.game)
    && ActorWindowOk(s.actor)
  }

  /** The initial values of the globals; the window lengths come from the
      profilers' headers and are parameters here. */
  function Init(worldRounds: nat, actorRounds: nat): (s: TickState)
    requires worldRounds >= 1 && actorRounds >= 1
    ensures Inv(s)
    ensures s.status == Normal && s.lastStatus == Normal
    ensures !s.game.inProfiling && !s.actor.inProfiling && !s.isMspting
    ensures s.reports == [] && s.originalCalls == 0 && s.lightTicks == 0 && s.heavyTicks == 0
    ensures s.wrapSpeed == 1 && s.slowDownTimes == 1 && s.slowDownCounter == 0 && s.forwardTickNum == 0
    ensures s.game.totalRound == worldRounds && s.game.IsClear()
    ensures s.actor.totalRound == actorRounds && s.actor.entitiesTickingList == map[]
  {
    TickState(
      Normal, Normal, 1, 1, 0, 0, false,
      GameProfile(false, worldRounds, 0, 0, 0, 0, 0, 0, 0, 0, 0, 0),
      ActorProfile(false, actorRounds, 0, map[]),
      0, 0, 0, [])
  }
}
