/** Properties of the tick controller over sequences of ticks and commands:
    the Slow cadence, Wrap and Freeze step counts, the Forward burst, the
    one-shot mspt sample, the exactly-once reporting of both profiling
    windows, and the invariant of every reachable state. */
module TickLemmas {
  import opened TickState
  import opened TickSpec

  /** The inputs of one ServerLevel::tick invocation. */
  datatype TickInput = TickInput(elapsed: nat, isRedstoneTick: bool)

  /** Consecutive ServerLevel::tick invocations with no command in between. */
  function Run(s: TickState, ins: seq<TickInput>): (r: TickState)
    requires Inv(s)
    ensures Inv(r)
    ensures s.reports <= r.reports
    ensures s.status != Forward ==> r.status == s.status
    ensures r.slowDownTimes == s.slowDownTimes && r.wrapSpeed == s.wrapSpeed
    decreases |ins|
  {
    if ins == [] then s else Run(Tick(s, ins[0].elapsed, ins[0].isRedstoneTick), ins[1..])
  }

  /** The total measured time of a sequence of ticks. */
  function SumElapsed(ins: seq<TickInput>): nat {
    if ins == [] then 0 else ins[0].elapsed + SumElapsed(ins[1..])
  }

  // ---------------------------------------------------------------------
  // Counting reports

  predicate IsMsptSample(r: Report) { r.MsptSample? }
  predicate IsWorldReport(r: Report) { r.WorldReport? }
  predicate IsEntityReport(r: Report) { r.EntityReport? }

  /** The number of reports of one kind in a log. */
  function Count(rs: seq<Report>, kind: Report -> bool): nat {
    if rs == [] then 0
    else Count(rs[..|rs| - 1], kind) + (if kind(rs[|rs| - 1]) then 1 else 0)
  }

  lemma {:induction false} CountAppend(a: seq<Report>, b: seq<Report>, kind: Report -> bool)
    ensures Count(a + b, kind) == Count(a, kind) + Count(b, kind)
    decreases |b|
  {
    if b == [] {
      assert a + b == a;
    } else {
      var b' := b[..|b| - 1];
      assert (a + b)[..|a + b| - 1] == a + b';
      assert (a + b)[|a + b| - 1] == b[|b| - 1];
      CountAppend(a, b', kind);
    }
  }

  lemma CountOne(x: Report, kind: Report -> bool)
    ensures Count([x], kind) == if kind(x) then 1 else 0
  {
    assert [x][..0] == [];
  }

  /** Appending at most one report of a known kind. */
  lemma CountAppendOpt(a: seq<Report>, b: seq<Report>, kind: Report -> bool)
    requires |b| <= 1
    ensures Count(a + b, kind) == Count(a, kind) + (if b != [] && kind(b[0]) then 1 else 0)
  {
    CountAppend(a, b, kind);
    if b != [] {
      assert b == [b[0]];
      CountOne(b[0], kind);
    }
  }

  // ---------------------------------------------------------------------
  // What one Normal tick appends to the log

  /** A Normal tick appends, in this order, the actor window's report when
      its last round passes, the mspt sample when armed, and the world
      window's report when its last round passes; each open window loses one
      round (the world window also gains the step's time), and a window
      whose last round passed is reset. */
  lemma NormalTickShape(s: TickState, elapsed: nat, isRedstoneTick: bool)
    requires Inv(s) && s.status == Normal
    ensures var r := Tick(s, elapsed, isRedstoneTick);
      var e := if s.actor.inProfiling && s.actor.currentRound == 1
               then [EntityReport(s.actor.(currentRound := 0))] else [];
      var m := if s.isMspting then [MsptSample(SendMsptInfo(elapsed, isRedstoneTick))] else [];
      var w := if s.game.inProfiling && s.game.currentRound == 1
               then [WorldReport(s.game.(inProfiling := false, currentRound := 0,
                       serverLevelTickTime := s.game.serverLevelTickTime + elapsed))] else [];
      && r.reports == s.reports + e + m + w
      && r.game == (if !s.game.inProfiling then s.game
                    else if s.game.currentRound == 1 then s.game.Cleared()
                    else s.game.(currentRound := s.game.currentRound - 1,
                                 serverLevelTickTime := s.game.serverLevelTickTime + elapsed))
      && r.actor == (if !s.actor.inProfiling then s.actor
                     else if s.actor.currentRound == 1 then s.actor.Cleared()
                     else s.actor.(currentRound := s.actor.currentRound - 1))
  {
    var f := FullStep(s);
    var sampled := SampleMspt(f, elapsed, isRedstoneTick);
    assert Tick(s, elapsed, isRedstoneTick) == NormalTick(s, elapsed, isRedstoneTick);
    assert f.game == s.game && sampled.game == s.game && sampled.actor == f.actor;
  }

  /** Counting one kind of report across a Normal tick. */
  lemma {:induction false} NormalTickCount(s: TickState, elapsed: nat, isRedstoneTick: bool, kind: Report -> bool)
    requires Inv(s) && s.status == Normal
    ensures var r := Tick(s, elapsed, isRedstoneTick);
      Count(r.reports, kind) == Count(s.reports, kind)
        + (if s.actor.inProfiling && s.actor.currentRound == 1 && kind(EntityReport(s.actor.(currentRound := 0))) then 1 else 0)
        + (if s.isMspting && kind(MsptSample(SendMsptInfo(elapsed, isRedstoneTick))) then 1 else 0)
        + (if s.game.inProfiling && s.game.currentRound == 1
              && kind(WorldReport(s.game.(inProfiling := false, currentRound := 0,
                        serverLevelTickTime := s.game.serverLevelTickTime + elapsed))) then 1 else 0)
  {
    NormalTickShape(s, elapsed, isRedstoneTick);
    var e := if s.actor.inProfiling && s.actor.currentRound == 1
             then [EntityReport(s.actor.(currentRound := 0))] else [];
    var m := if s.isMspting then [MsptSample(SendMsptInfo(elapsed, isRedstoneTick))] else [];
    var w := if s.game.inProfiling && s.game.currentRound == 1
             then [WorldReport(s.game.(inProfiling := false, currentRound := 0,
                     serverLevelTickTime := s.game.serverLevelTickTime + elapsed))] else [];
    CountAppendOpt(s.reports, e, kind);
    CountAppendOpt(s.reports + e, m, kind);
    CountAppendOpt(s.reports + e + m, w, kind);
  }

  /** Outside Normal a tick emits no sample and no profiler report. */
  lemma {:induction false} OtherTickCount(s: TickState, elapsed: nat, isRedstoneTick: bool, kind: Report -> bool)
    requires Inv(s) && s.status != Normal
    requires forall x :: kind(x) ==> x.MsptSample? || x.WorldReport? || x.EntityReport?
    ensures Count(Tick(s, elapsed, isRedstoneTick).reports, kind) == Count(s.reports, kind)
  {
    var r := Tick(s, elapsed, isRedstoneTick);
    if s.status == Forward {
      CountAppendOpt(s.reports, [ForwardElapsed(s.forwardTickNum)], kind);
    } else {
      assert r.reports == s.reports;
    }
  }

  // ---------------------------------------------------------------------
  // The one-shot mspt sample

  /** Only a Normal tick consumes the mspt flag, and it emits exactly one
      sample when the flag was set; every other tick keeps the flag and emits
      none. */
  lemma MsptConsumedOnce(s: TickState, elapsed: nat, isRedstoneTick: bool)
    requires Inv(s)
    ensures var r := Tick(s, elapsed, isRedstoneTick);
      && r.isMspting == (s.isMspting && s.status != Normal)
      && Count(r.reports, IsMsptSample) == Count(s.reports, IsMsptSample)
           + (if s.isMspting && s.status == Normal then 1 else 0)
  {
    if s.status == Normal {
      NormalTickCount(s, elapsed, isRedstoneTick, IsMsptSample);
    } else {
      OtherTickCount(s, elapsed, isRedstoneTick, IsMsptSample);
    }
  }

  /** A run of Normal ticks after mspt() emits exactly one sample, in its
      first tick, and leaves the flag clear. */
  lemma {:induction false} MsptExactlyOnce(s: TickState, ins: seq<TickInput>)
    requires Inv(s) && s.status == Normal && s.isMspting && |ins| >= 1
    ensures var r := Run(s, ins);
      && !r.isMspting
      && Count(r.reports, IsMsptSample) == Count(s.reports, IsMsptSample) + 1
      && MsptSample(SendMsptInfo(ins[0].elapsed, ins[0].isRedstoneTick)) in r.reports[|s.reports|..]
  {
    var s1 := Tick(s, ins[0].elapsed, ins[0].isRedstoneTick);
    MsptConsumedOnce(s, ins[0].elapsed, ins[0].isRedstoneTick);
    NormalTickShape(s, ins[0].elapsed, ins[0].isRedstoneTick);
    MsptNoneWhenClear(s1, ins[1..]);
  }

  lemma {:induction false} MsptNoneWhenClear(s: TickState, ins: seq<TickInput>)
    requires Inv(s) && s.status == Normal && !s.isMspting
    ensures var r := Run(s, ins);
      !r.isMspting && Count(r.reports, IsMsptSample) == Count(s.reports, IsMsptSample)
      && r.reports[..|s.reports|] == s.reports
    decreases |ins|
  {
    if ins != [] {
      MsptConsumedOnce(s, ins[0].elapsed, ins[0].isRedstoneTick);
      MsptNoneWhenClear(Tick(s, ins[0].elapsed, ins[0].isRedstoneTick), ins[1..]);
    }
  }

  // ---------------------------------------------------------------------
  // Profiling windows

  /** `r` is what follows the last round of the world window open in `s`,
      after steps that took `sum` in all: the window is reset, and it was
      reported once, as the last report, with the whole-step total. */
  predicate WorldClosed(s: TickState, sum: nat, r: TickState) {
    && r.status == Normal
    && r.game == s.game.Cleared()
    && Count(r.reports, IsWorldReport) == Count(s.reports, IsWorldReport) + 1
    && |r.reports| > 0
    && r.reports[|r.reports| - 1] ==
         WorldReport(s.game.(inProfiling := false, currentRound := 0,
                             serverLevelTickTime := s.game.serverLevelTickTime + sum))
  }

  /** One Normal tick with the world window open: one round passes, and the
      last round closes, reports and resets the window. */
  lemma NormalTickWorld(s: TickState, elapsed: nat, isRedstoneTick: bool)
    requires Inv(s) && s.status == Normal && s.game.inProfiling
    ensures var r := Tick(s, elapsed, isRedstoneTick);
      && r.status == Normal
      && (s.game.currentRound > 1 ==>
            && r.game == s.game.(currentRound := s.game.currentRound - 1,
                                 serverLevelTickTime := s.game.serverLevelTickTime + elapsed)
            && Count(r.reports, IsWorldReport) == Count(s.reports, IsWorldReport))
      && (s.game.currentRound == 1 ==> WorldClosed(s, elapsed, r))
  {
    NormalTickCount(s, elapsed, isRedstoneTick, IsWorldReport);
    NormalTickShape(s, elapsed, isRedstoneTick);
  }

  /** A world window opened with R rounds left, while fewer than R Normal
      ticks have passed: it stays open, its whole-step accumulator holding
      the sum of their times, and nothing is reported. */
  lemma {:induction false} WorldWindowOpen(s: TickState, ins: seq<TickInput>)
    requires Inv(s) && s.status == Normal && s.game.inProfiling
    requires |ins| < s.game.currentRound
    ensures var r := Run(s, ins);
      && r.status == Normal
      && r.game == s.game.(currentRound := s.game.currentRound - |ins|,
                           serverLevelTickTime := s.game.serverLevelTickTime + SumElapsed(ins))
      && Count(r.reports, IsWorldReport) == Count(s.reports, IsWorldReport)
    decreases |ins|
  {
    if ins == [] {
      assert Run(s, ins) == s;
    } else {
      var i := ins[0];
      var s1 := Tick(s, i.elapsed, i.isRedstoneTick);
      NormalTickWorld(s, i.elapsed, i.isRedstoneTick);
      assert Run(s, ins) == Run(s1, ins[1..]);
      assert SumElapsed(ins) == i.elapsed + SumElapsed(ins[1..]);
      WorldWindowOpen(s1, ins[1..]);
    }
  }

  /** The R-th Normal tick of a world window reports it exactly once, as the
      last report of that tick, with the sum of all R step times, and resets
      it. */
  lemma {:induction false} WorldWindowClose(s: TickState, ins: seq<TickInput>)
    requires Inv(s) && s.status == Normal && s.game.inProfiling
    requires |ins| == s.game.currentRound
    ensures WorldClosed(s, SumElapsed(ins), Run(s, ins))
    decreases |ins|
  {
    var s1 := WorldFirstTick(s, ins);
    if |ins| == 1 {
      RunEmpty(s1, ins[1..]);
      WorldClosedSame(s, ins[0].elapsed, s1, SumElapsed(ins), Run(s, ins));
    } else {
      WorldWindowClose(s1, ins[1..]);
      WorldClosedShift(s, s1, ins[0].elapsed, SumElapsed(ins[1..]), Run(s1, ins[1..]),
                       SumElapsed(ins), Run(s, ins));
    }
  }

  /** Proof step only: restates WorldClosed for equal arguments, so that the
      closing lemma's goal is met by a term the solver matches directly. */
  lemma WorldClosedSame(s: TickState, sum: nat, r: TickState, sum': nat, r': TickState)
    requires WorldClosed(s, sum, r) && sum' == sum && r' == r
    ensures WorldClosed(s, sum', r')
  {
  }

  /** The first tick of a run of Normal ticks with the world window open,
      as the state `s1` it leaves for the rest of the run. */
  lemma WorldFirstTick(s: TickState, ins: seq<TickInput>) returns (s1: TickState)
    requires Inv(s) && s.status == Normal && s.game.inProfiling && |ins| >= 1
    ensures Inv(s1) && s1.status == Normal
    ensures Run(s, ins) == Run(s1, ins[1..])
    ensures SumElapsed(ins) == ins[0].elapsed + SumElapsed(ins[1..])
    ensures s.game.currentRound > 1 ==>
      && s1.game == s.game.(currentRound := s.game.currentRound - 1,
                            serverLevelTickTime := s.game.serverLevelTickTime + ins[0].elapsed)
      && Count(s1.reports, IsWorldReport) == Count(s.reports, IsWorldReport)
    ensures s.game.currentRound == 1 ==> WorldClosed(s, ins[0].elapsed, s1)
  {
    s1 := Tick(s, ins[0].elapsed, ins[0].isRedstoneTick);
    NormalTickWorld(s, ins[0].elapsed, ins[0].isRedstoneTick);
  }

  /** Proof step only: running no ticks changes nothing and takes no time. */
  lemma RunEmpty(s: TickState, ins: seq<TickInput>)
    requires Inv(s) && ins == []
    ensures Run(s, ins) == s && SumElapsed(ins) == 0
  {
  }

  /** Proof step only: closing a window that an earlier tick taking `first`
      had advanced; it keeps the tick logic out of the closing lemma. */
  lemma WorldClosedShift(s: TickState, s': TickState, first: nat, rest: nat, r: TickState,
                         sum: nat, r': TickState)
    requires s'.game == s.game.(currentRound := s.game.currentRound - 1,
                                serverLevelTickTime := s.game.serverLevelTickTime + first)
    requires Count(s'.reports, IsWorldReport) == Count(s.reports, IsWorldReport)
    requires WorldClosed(s', rest, r)
    requires sum == first + rest && r' == r
    ensures WorldClosed(s, sum, r')
  {
  }

  /** Running one more tick is one more Tick on the result. */
  lemma {:induction false} RunSnoc(s: TickState, ins: seq<TickInput>, x: TickInput)
    requires Inv(s)
    ensures Run(s, ins + [x]) == Tick(Run(s, ins), x.elapsed, x.isRedstoneTick)
    decreases |ins|
  {
    if ins == [] {
      assert [] + [x] == [x];
      assert [x][1..] == [];
    } else {
      assert (ins + [x])[1..] == ins[1..] + [x];
      RunSnoc(Tick(s, ins[0].elapsed, ins[0].isRedstoneTick), ins[1..], x);
    }
  }

  lemma {:induction false} SumSnoc(ins: seq<TickInput>, x: TickInput)
    ensures SumElapsed(ins + [x]) == SumElapsed(ins) + x.elapsed
    decreases |ins|
  {
    if ins == [] {
      assert [] + [x] == [x];
      assert [x][1..] == [];
    } else {
      assert (ins + [x])[1..] == ins[1..] + [x];
      SumSnoc(ins[1..], x);
    }
  }

  /** One Normal tick with the actor window open. */
  lemma NormalTickEntity(s: TickState, elapsed: nat, isRedstoneTick: bool)
    requires Inv(s) && s.status == Normal && s.actor.inProfiling
    ensures var r := Tick(s, elapsed, isRedstoneTick);
      && r.status == Normal
      && (s.actor.currentRound > 1 ==>
            && r.actor == s.actor.(currentRound := s.actor.currentRound - 1)
            && Count(r.reports, IsEntityReport) == Count(s.reports, IsEntityReport))
      && (s.actor.currentRound == 1 ==>
            && r.actor == s.actor.Cleared()
            && Count(r.reports, IsEntityReport) == Count(s.reports, IsEntityReport) + 1
            && |r.reports| > |s.reports|
            && r.reports[|s.reports|] == EntityReport(s.actor.(currentRound := 0)))
  {
    NormalTickCount(s, elapsed, isRedstoneTick, IsEntityReport);
    NormalTickShape(s, elapsed, isRedstoneTick);
  }

  /** The actor window counts down on Normal ticks only (staticWork runs in
      the Normal branch): after fewer than R Normal ticks it is still open
      with its list untouched and nothing is reported. */
  lemma {:induction false} EntityWindowOpen(s: TickState, ins: seq<TickInput>)
    requires Inv(s) && s.status == Normal && s.actor.inProfiling
    requires |ins| < s.actor.currentRound
    ensures var r := Run(s, ins);
      && r.status == Normal
      && r.actor == s.actor.(currentRound := s.actor.currentRound - |ins|)
      && Count(r.reports, IsEntityReport) == Count(s.reports, IsEntityReport)
    decreases |ins|
  {
    if ins == [] {
      assert Run(s, ins) == s;
    } else {
      var i := ins[0];
      var s1 := Tick(s, i.elapsed, i.isRedstoneTick);
      NormalTickEntity(s, i.elapsed, i.isRedstoneTick);
      assert Run(s, ins) == Run(s1, ins[1..]);
      EntityWindowOpen(s1, ins[1..]);
    }
  }

  /** The R-th Normal tick of an actor window reports it exactly once, in
      that tick, and resets it. */
  lemma EntityWindowClose(s: TickState, ins: seq<TickInput>)
    requires Inv(s) && s.status == Normal && s.actor.inProfiling
    requires |ins| == s.actor.currentRound
    ensures var r := Run(s, ins);
      && r.status == Normal
      && r.actor == s.actor.Cleared()
      && Count(r.reports, IsEntityReport) == Count(s.reports, IsEntityReport) + 1
      && EntityReport(s.actor.(currentRound := 0)) in r.reports[|s.reports|..]
  {
    var n := |ins| - 1;
    var prefix, last := ins[..n], ins[n];
    assert ins == prefix + [last];
    EntityWindowOpen(s, prefix);
    var s' := Run(s, prefix);
    RunSnoc(s, prefix, last);
    NormalTickEntity(s', last.elapsed, last.isRedstoneTick);
    var r := Tick(s', last.elapsed, last.isRedstoneTick);
    assert Run(s, ins) == r;
    assert s'.actor.currentRound == 1;
    assert s'.actor.Cleared() == s.actor.Cleared();
    assert s'.actor.(currentRound := 0) == s.actor.(currentRound := 0);
    assert r.reports[|s'.reports|] == EntityReport(s.actor.(currentRound := 0));
    assert r.reports[|s.reports|..][|s'.reports| - |s.reports|] == r.reports[|s'.reports|];
  }

  /** Ticks outside Normal leave both windows exactly as they are. */
  lemma {:induction false} WindowsPauseOutsideNormal(s: TickState, ins: seq<TickInput>)
    requires Inv(s) && s.status != Normal && s.status != Forward
    ensures var r := Run(s, ins);
      && r.game == s.game && r.actor == s.actor
      && Count(r.reports, IsWorldReport) == Count(s.reports, IsWorldReport)
      && Count(r.reports, IsEntityReport) == Count(s.reports, IsEntityReport)
    decreases |ins|
  {
    if ins != [] {
      var s1 := Tick(s, ins[0].elapsed, ins[0].isRedstoneTick);
      OtherTickCount(s, ins[0].elapsed, ins[0].isRedstoneTick, IsWorldReport);
      OtherTickCount(s, ins[0].elapsed, ins[0].isRedstoneTick, IsEntityReport);
      WindowsPauseOutsideNormal(s1, ins[1..]);
    }
  }

  // ---------------------------------------------------------------------
  // Frozen, Wrap, Forward

  /** A frozen world stays exactly as it is, however many ticks pass. */
  lemma {:induction false} FrozenRun(s: TickState, ins: seq<TickInput>)
    requires Inv(s) && s.status == Frozen
    ensures Run(s, ins) == s
    decreases |ins|
  {
    if ins != [] {
      FrozenRun(Tick(s, ins[0].elapsed, ins[0].isRedstoneTick), ins[1..]);
    }
  }

  /** In Wrap every tick runs wrapSpeed original/lightTick calls and one
      heavyTick. */
  lemma {:induction false} WrapRun(s: TickState, ins: seq<TickInput>)
    requires Inv(s) && s.status == Wrap
    ensures var r := Run(s, ins);
      && r.status == Wrap
      && r.originalCalls == s.originalCalls + |ins| * s.wrapSpeed
      && r.lightTicks == s.lightTicks + |ins| * s.wrapSpeed
      && r.heavyTicks == s.heavyTicks + |ins|
      && r == s.(originalCalls := r.originalCalls, lightTicks := r.lightTicks, heavyTicks := r.heavyTicks)
    decreases |ins|
  {
    if ins != [] {
      var s1 := Tick(s, ins[0].elapsed, ins[0].isRedstoneTick);
      WrapRun(s1, ins[1..]);
      assert |ins| * s.wrapSpeed == s.wrapSpeed + |ins[1..]| * s.wrapSpeed;
    }
  }

  /** forwardTick from Normal or Frozen followed by one tick: the whole burst
      of max(0, n) original/lightTick calls and no heavyTick runs in that one
      tick, the count is cleared, the previous status is back and one
      "gt passed" report is emitted; the profilers are untouched. */
  lemma ForwardBurst(s: TickState, n: int, elapsed: nat, isRedstoneTick: bool)
    requires Inv(s) && (s.status == Normal || s.status == Frozen)
    ensures var f := ForwardTick(s, n);
      var r := Tick(f, elapsed, isRedstoneTick);
      && r.status == s.status
      && r.originalCalls == s.originalCalls + ForwardSteps(n)
      && r.lightTicks == s.lightTicks + ForwardSteps(n)
      && r.heavyTicks == s.heavyTicks
      && r.forwardTickNum == 0
      && r.reports == f.reports + [ForwardElapsed(n)]
      && r.game == s.game && r.actor == s.actor && r.isMspting == s.isMspting
  {
  }

  // ---------------------------------------------------------------------
  // The Slow cadence

  /** (x + 1) mod n from x mod n. */
  lemma ModSucc(x: int, n: int)
    requires x >= 0 && n >= 1
    ensures (x + 1) % n == (x % n + 1) % n
  {
    var q, m := x / n, x % n;
    assert x == q * n + m;
    if m + 1 < n {
      ModOf(x + 1, n, q, m + 1);
      ModOf(m + 1, n, 0, m + 1);
    } else {
      MulSucc(q, n);
      ModOf(x + 1, n, q + 1, 0);
      ModOf(m + 1, n, 1, 0);
    }
  }

  lemma MulSucc(q: int, n: int)
    ensures (q + 1) * n == q * n + n
  {
  }

  /** The remainder and quotient are determined by any decomposition. */
  lemma ModOf(x: int, n: int, q: int, m: int)
    requires n >= 1 && 0 <= m < n && x == q * n + m
    ensures x % n == m && x / n == q
  {
    var q', m' := x / n, x % n;
    assert x == q' * n + m';
    assert (q - q') * n == m' - m;
    ZeroProduct(q - q', n);
  }

  lemma ZeroProduct(d: int, n: int)
    requires n >= 1 && -n < d * n < n
    ensures d == 0
  {
  }

  /** (x mod n + y) mod n == (x + y) mod n. */
  lemma {:induction false} ModAdd(x: int, y: nat, n: int)
    requires x >= 0 && n >= 1
    ensures (x % n + y) % n == (x + y) % n
    decreases y
  {
    if y > 0 {
      ModAdd(x, y - 1, n);
      ModSucc(x % n + y - 1, n);
      ModSucc(x + y - 1, n);
    } else {
      ModOf(x % n, n, 0, x % n);
    }
  }

  /** The number of steps k Slow ticks run from counter c with factor n: the
      j-th of them runs one when the counter it sees is a multiple of n. */
  function SlowSteps(c: int, k: nat, n: int): (r: nat)
    requires c >= 0 && n >= 1
    ensures r <= k
    decreases k
  {
    if k == 0 then 0
    else (if c % n == 0 then 1 else 0) + SlowSteps((c + 1) % n, k - 1, n)
  }

  /** Only the counter's residue matters. */
  lemma SlowStepsMod(c: int, k: nat, n: int)
    requires c >= 0 && n >= 1
    ensures SlowSteps(c, k, n) == SlowSteps(c % n, k, n)
  {
    ModOf(c % n, n, 0, c % n);
    ModSucc(c, n);
  }

  /** Ticks can be counted in two consecutive stretches. */
  lemma {:induction false} SlowStepsSplit(c: int, a: nat, b: nat, n: int)
    requires c >= 0 && n >= 1
    ensures SlowSteps(c, a + b, n) == SlowSteps(c, a, n) + SlowSteps(c + a, b, n)
    decreases a
  {
    if a == 0 {
    } else {
      var c' := (c + 1) % n;
      SlowStepsSplit(c', a - 1, b, n);
      assert SlowSteps(c, a + b, n) == (if c % n == 0 then 1 else 0) + SlowSteps(c', a - 1 + b, n);
      assert SlowSteps(c, a, n) == (if c % n == 0 then 1 else 0) + SlowSteps(c', a - 1, n);
      ModAdd(c + 1, a - 1, n);
      assert (c' + (a - 1)) % n == (c + a) % n;
      SlowStepsMod(c' + (a - 1), b, n);
      SlowStepsMod(c + a, b, n);
      assert SlowSteps(c' + (a - 1), b, n) == SlowSteps(c + a, b, n);
    }
  }

  /** From a reduced counter m, the first k <= n ticks run a step exactly when
      they reach the first multiple of n. */
  lemma {:induction false} SlowStepsFirstWindow(m: int, k: nat, n: int)
    requires n >= 1 && 0 <= m < n && k <= n
    ensures SlowSteps(m, k, n) == if (m == 0 && k > 0) || (m > 0 && k > n - m) then 1 else 0
    decreases k
  {
    if k > 0 {
      ModOf(m, n, 0, m);
      if m + 1 < n {
        ModOf(m + 1, n, 0, m + 1);
      } else {
        ModOf(m + 1, n, 1, 0);
      }
      SlowStepsFirstWindow((m + 1) % n, k - 1, n);
    }
  }

  /** Any n consecutive Slow ticks run exactly one step, whatever count was
      left in the counter. */
  lemma SlowStepsWindow(c: int, n: int)
    requires c >= 0 && n >= 1
    ensures SlowSteps(c, n, n) == 1
  {
    SlowStepsMod(c, n, n);
    SlowStepsFirstWindow(c % n, n, n);
  }

  /** From a counter of zero, G ticks run ceil(G / n) steps: on ticks 0, n, 2n, ... */
  lemma {:induction false} SlowStepsFromZero(k: nat, n: int)
    requires n >= 1
    ensures SlowSteps(0, k, n) == (k + n - 1) / n
    decreases k
  {
    if k <= n {
      SlowStepsFirstWindow(0, k, n);
      if k == 0 {
        ModOf(n - 1, n, 0, n - 1);
      } else {
        ModOf(k + n - 1, n, 1, k - 1);
      }
    } else {
      SlowStepsSplit(0, n, k - n, n);
      SlowStepsWindow(0, n);
      ModOf(n, n, 1, 0);
      SlowStepsMod(n, k - n, n);
      SlowStepsFromZero(k - n, n);
      DivAddDivisor(k - 1, n);
    }
  }

  lemma DivAddDivisor(y: nat, n: int)
    requires n >= 1
    ensures (y + n) / n == y / n + 1
  {
    ModOf(y, n, y / n, y % n);
    ModOf(y + n, n, y / n + 1, y % n);
  }

  /** `r` is what k Slow ticks leave from `s`: SlowSteps full steps have
      run, the counter stands at (c + k) mod n, and nothing else moved (no
      report, the profilers, the flag and the other controller fields as they
      were). */
  predicate SlowRan(s: TickState, k: nat, r: TickState) {
    && s.slowDownCounter >= 0 && s.slowDownTimes >= 1
    && var steps := SlowSteps(s.slowDownCounter, k, s.slowDownTimes);
    && r.status == Slow
    && r.originalCalls == s.originalCalls + steps
    && r.lightTicks == s.lightTicks + steps
    && r.heavyTicks == s.heavyTicks + steps
    && r.slowDownCounter == (if k == 0 then s.slowDownCounter
                             else (s.slowDownCounter + k) % s.slowDownTimes)
    && r == s.(originalCalls := r.originalCalls, lightTicks := r.lightTicks,
               heavyTicks := r.heavyTicks, slowDownCounter := r.slowDownCounter)
  }

  /** k Slow ticks run SlowSteps steps and leave the counter at (c + k) mod n. */
  lemma {:induction false} SlowRun(s: TickState, ins: seq<TickInput>)
    requires Inv(s) && s.status == Slow
    ensures SlowRan(s, |ins|, Run(s, ins))
    decreases |ins|
  {
    if ins == [] {
      assert Run(s, ins) == s;
    } else {
      var s1 := Tick(s, ins[0].elapsed, ins[0].isRedstoneTick);
      assert Run(s, ins) == Run(s1, ins[1..]);
      SlowRun(s1, ins[1..]);
      SlowRanShift(s, s1, |ins| - 1, Run(s1, ins[1..]));
    }
  }

  lemma SlowRanShift(s: TickState, s1: TickState, k: nat, r: TickState)
    requires s.status == Slow && s.slowDownCounter >= 0 && s.slowDownTimes >= 1
    requires var ran := if s.slowDownCounter % s.slowDownTimes == 0 then 1 else 0;
      && s1.status == Slow && s1.slowDownTimes == s.slowDownTimes
      && s1.originalCalls == s.originalCalls + ran
      && s1.lightTicks == s.lightTicks + ran
      && s1.heavyTicks == s.heavyTicks + ran
      && s1.slowDownCounter == (s.slowDownCounter + 1) % s.slowDownTimes
      && s1 == s.(originalCalls := s1.originalCalls, lightTicks := s1.lightTicks,
                  heavyTicks := s1.heavyTicks, slowDownCounter := s1.slowDownCounter)
    requires SlowRan(s1, k, r)
    ensures SlowRan(s, k + 1, r)
  {
    var c, n := s.slowDownCounter, s.slowDownTimes;
    assert SlowSteps(c, k + 1, n) == (if c % n == 0 then 1 else 0) + SlowSteps((c + 1) % n, k, n);
    if k > 0 {
      ModAdd(c + 1, k, n);
    }
  }

  /** Any slowDownTimes consecutive Slow ticks run exactly one step. */
  lemma SlowCadence(s: TickState, ins: seq<TickInput>)
    requires Inv(s) && s.status == Slow && |ins| == s.slowDownTimes
    ensures var r := Run(s, ins);
      && r.status == Slow
      && r.originalCalls == s.originalCalls + 1
      && r.lightTicks == s.lightTicks + 1
      && r.heavyTicks == s.heavyTicks + 1
  {
    SlowRun(s, ins);
    SlowStepsWindow(s.slowDownCounter, s.slowDownTimes);
  }

  /** From a zero counter, G Slow ticks run ceil(G / slowDownTimes) steps. */
  lemma SlowFromZero(s: TickState, ins: seq<TickInput>)
    requires Inv(s) && s.status == Slow && s.slowDownCounter == 0
    ensures Run(s, ins).originalCalls == s.originalCalls + (|ins| + s.slowDownTimes - 1) / s.slowDownTimes
  {
    SlowRun(s, ins);
    SlowStepsFromZero(|ins|, s.slowDownTimes);
  }

  // ---------------------------------------------------------------------
  // Reachable states

  /** Everything that can happen to the controller: the chat commands (with
      their range checks), the tick and the profiling hooks. */
  datatype Op =
    | FreezeCmd
    | ResetCmd
    | SlowCmd(slowArg: int)
    | AccCmd(accArg: int)
    | ForwardCmd(forwardArg: int)
    | ProfileWorldCmd
    | ProfileEntitiesCmd
    | MsptCmd
    | LevelTick(input: TickInput)
    | HookTick(sub: Subsystem, hookElapsed: nat)
    | ActorHookTick(id: ActorId, actorElapsed: nat)

  function Step(s: TickState, op: Op): (r: TickState)
    requires Inv(s)
    ensures Inv(r)
  {
    match op
    case FreezeCmd => FreezeTick(s)
    case ResetCmd => ResetTick(s)
    case SlowCmd(n) => SlowCommand(s, n)
    case AccCmd(n) => AccCommand(s, n)
    case ForwardCmd(n) => ForwardTick(s, n)
    case ProfileWorldCmd => ProfileWorld(s)
    case ProfileEntitiesCmd => ProfileEntities(s)
    case MsptCmd => Mspt(s)
    case LevelTick(i) => Tick(s, i.elapsed, i.isRedstoneTick)
    case HookTick(sub, e) => SubsystemTick(s, sub, e)
    case ActorHookTick(id, e) => ActorTick(s, id, e)
  }

  /** Every state reachable from the initial one keeps the invariant: the
      saved status is never Forward, and the Slow divisor is at least one. */
  function RunOps(s: TickState, ops: seq<Op>): (r: TickState)
    requires Inv(s)
    ensures Inv(r)
    ensures r.lastStatus != Forward && r.slowDownTimes >= 1 && r.slowDownCounter >= 0
    decreases |ops|
  {
    if ops == [] then s else RunOps(Step(s, ops[0]), ops[1..])
  }

  /** The ranges the chat commands enforce hold whenever they matter: a slow
      world ticks once every 2..64 hook calls, a wrapped one 2..10 times per
      call, and a Forward burst returns to Normal or Frozen. */
  predicate CommandRanges(s: TickState) {
    && (s.status == Slow ==> 2 <= s.slowDownTimes <= 64)
    && (s.status == Wrap ==> 2 <= s.wrapSpeed <= 10)
    && (s.lastStatus == Normal || s.lastStatus == Frozen)
  }

  /** Every command, tick and hook keeps the command ranges. */
  lemma StepRanges(s: TickState, op: Op)
    requires Inv(s) && CommandRanges(s)
    ensures CommandRanges(Step(s, op))
  {
    match op
    case LevelTick(i) =>
      var r := Tick(s, i.elapsed, i.isRedstoneTick);
      assert r.status == s.status || (s.status == Forward && r.status == s.lastStatus);
    case _ =>
  }

  lemma {:induction false} RunOpsRanges(s: TickState, ops: seq<Op>)
    requires Inv(s) && CommandRanges(s)
    ensures CommandRanges(RunOps(s, ops))
    decreases |ops|
  {
    if ops != [] {
      StepRanges(s, ops[0]);
      RunOpsRanges(Step(s, ops[0]), ops[1..]);
    }
  }

  /** Started from the initial values, any sequence of commands, ticks and
      hooks leaves the controller in a state that keeps the invariant and the
      command ranges. */
  lemma Reachable(worldRounds: nat, actorRounds: nat, ops: seq<Op>)
    requires worldRounds >= 1 && actorRounds >= 1
    ensures var r := RunOps(Init(worldRounds, actorRounds), ops);
      Inv(r) && CommandRanges(r)
  {
    RunOpsRanges(Init(worldRounds, actorRounds), ops);
  }
}
