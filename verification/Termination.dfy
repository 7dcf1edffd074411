/** Shutdown ends: a measure that every step but a clock tick lowers, and a bound on the ticks. */
module Termination {
  import opened GoErrors
  import opened Lifecycle
  import opened Invariant
  import opened Engine

  /** How many steps the goroutine of Run still has before it, at most. */
  function RunRank(n: nat, pc: Pc): int {
    match pc
    case InitNext(i) => 9 + 3 * n + 2 * (n - i)
    case InitCall(i) => 8 + 3 * n + 2 * (n - i)
    case Launching(i) => 8 + 2 * n + (n - i)
    case Waiting => 7 + 2 * n
    case Woken => 6 + 2 * n
    case HaveParentErr(_) => 5 + 2 * n
    case Stopping(k) => 4 + 2 * (n - k)
    case StopWait(k) => 3 + 2 * (n - k)
    case DrainWait => 3
    case Closing => 2
    case Joining => 1
    case Done => 0
  }

  /** A goroutine that still has to post pays in advance for the handling of its result. */
  function StartRank(st: StartStatus): nat {
    match st
    case Unlaunched => 8
    case Launched => 7
    case InStart => 6
    case Holding(_) => 5
    case Posted(_, _) => 1
    case Exited(_, _) => 0
  }

  function StopRank(st: StopStatus): nat {
    if st.Stopped? then 0 else 1
  }

  function DrainRank(d: Drainer): nat {
    match d
    case Gone => 0
    case Handling(_) => 2
    case _ => 1
  }

  function StartsRank(starts: seq<StartStatus>): nat {
    if starts == [] then 0 else StartsRank(starts[..|starts| - 1]) + StartRank(starts[|starts| - 1])
  }

  function StopsRank(stops: seq<StopStatus>): nat {
    if stops == [] then 0 else StopsRank(stops[..|stops| - 1]) + StopRank(stops[|stops| - 1])
  }

  function Fuel(c: Config, s: State): int {
    RunRank(c.N(), s.run.pc) + StartsRank(s.starts) + 2 * |s.chan.queue| + DrainRank(s.chan.drainer)
    + StopsRank(s.stops) + (if s.waiter.Closed? then 0 else 1)
    + (if s.ctx.parent.Nil? then 1 else 0) + (if s.ctx.cancelled then 0 else 1)
  }

  lemma {:induction false} StartsRankUpdate(starts: seq<StartStatus>, i: nat, st: StartStatus)
    requires i < |starts|
    ensures StartsRank(starts[i := st]) == StartsRank(starts) - StartRank(starts[i]) + StartRank(st)
  {
    var last := |starts| - 1;
    if i == last {
      assert starts[i := st][..last] == starts[..last];
    } else {
      StartsRankUpdate(starts[..last], i, st);
      assert starts[i := st][..last] == starts[..last][i := st];
    }
  }

  lemma {:induction false} StopsRankUpdate(stops: seq<StopStatus>, i: nat, st: StopStatus)
    requires i < |stops|
    ensures StopsRank(stops[i := st]) == StopsRank(stops) - StopRank(stops[i]) + StopRank(st)
  {
    var last := |stops| - 1;
    if i == last {
      assert stops[i := st][..last] == stops[..last];
    } else {
      StopsRankUpdate(stops[..last], i, st);
      assert stops[i := st][..last] == stops[..last][i := st];
    }
  }

  lemma RunAdvances(c: Config, s: State, step: RunStep)
    requires Bounds(c, s.run) && RunReady(c, s, step)
    ensures RunRank(c.N(), RunLocal(c, s, step).pc) < RunRank(c.N(), s.run.pc)
  {
  }

  lemma RunBurns(c: Config, s: State, step: RunStep)
    requires Bounds(c, s.run) && Shape(c, s) && RunReady(c, s, step)
    requires Launches(c, s.run, s.starts, s.running) && StopCalls(c, s.run, s.stops)
    ensures Fuel(c, RunApply(c, s, step)) < Fuel(c, s)
  {
    RunAdvances(c, s, step);
    assert RunApply(c, s, step).run == RunLocal(c, s, step);
    if step.Launch? { StartsRankUpdate(s.starts, s.run.pc.i, Launched); }
    if step.CallStop? { StopsRankUpdate(s.stops, c.N() - 1 - s.run.pc.k, InStop); }
  }

  lemma StartBurns(c: Config, s: State, i: nat, act: StartStep)
    requires StartReady(c, s, i, act)
    ensures Fuel(c, StartApply(c, s, i, act)) < Fuel(c, s)
  {
    StartsRankUpdate(s.starts, i, StartMove(s.starts[i], act));
  }

  lemma OtherBurns(c: Config, s: State, a: Action)
    requires Ready(c, s, a) && !a.Run? && !a.Start?
    ensures Fuel(c, Apply(c, s, a)) < Fuel(c, s)
  {
    if a.StopReturn? { StopsRankUpdate(s.stops, a.i, Stopped(SafeCall(a.call))); }
  }

  /** Every step but a tick burns fuel. */
  lemma StepBurns(c: Config, s: State, a: Action)
    requires Inv(c, s) && Enabled(c, s, a) && !a.Tick?
    ensures Fuel(c, Apply(c, s, a)) < Fuel(c, s)
  {
    match a
    case Run(step) => RunBurns(c, s, step);
    case Start(i, act) => StartBurns(c, s, i, act);
    case _ => OtherBurns(c, s, a);
  }

  lemma FuelIsPositive(c: Config, s: State)
    requires Bounds(c, s.run)
    ensures 0 <= Fuel(c, s)
  {
  }

  lemma {:induction false} RanksAtStart(starts: seq<StartStatus>, stops: seq<StopStatus>)
    requires forall i | 0 <= i < |starts| :: starts[i].Unlaunched?
    requires forall i | 0 <= i < |stops| :: stops[i].Uncalled?
    ensures StartsRank(starts) == 8 * |starts| && StopsRank(stops) == |stops|
    decreases |starts| + |stops|
  {
    if starts != [] { RanksAtStart(starts[..|starts| - 1], stops); }
    if stops != [] { RanksAtStart(starts, stops[..|stops| - 1]); }
  }

  ghost function Ticks(acts: seq<Action>): nat {
    Times(acts, Tick)
  }

  lemma ClockStep(c: Config, s: State, a: Action)
    requires Enabled(c, s, a)
    ensures Apply(c, s, a).now == if a.Tick? then s.now + 1 else s.now
  {
  }

  lemma {:induction false} RunBurnsFuel(c: Config, s: State, acts: seq<Action>)
    requires Inv(c, s) && Exec(c, s, acts).Some?
    ensures Ticks(acts) <= |acts|
    ensures |acts| - Ticks(acts) <= Fuel(c, s) - Fuel(c, Exec(c, s, acts).value)
    ensures Exec(c, s, acts).value.now == s.now + Ticks(acts)
  {
    if acts != [] {
      var last := |acts| - 1;
      var mid := Exec(c, s, acts[..last]).value;
      RunBurnsFuel(c, s, acts[..last]);
      ExecKeeps(c, s, acts[..last]);
      ClockStep(c, mid, acts[last]);
      if !acts[last].Tick? { StepBurns(c, mid, acts[last]); }
      else { assert Fuel(c, Apply(c, mid, acts[last])) == Fuel(c, mid); }
    }
  }

  lemma FuelAtStart(c: Config)
    ensures Fuel(c, Initial(c)) == 14 * c.N() + 13
  {
    RanksAtStart(Initial(c).starts, Initial(c).stops);
  }

  lemma FuelBound(c: Config, s: State)
    requires Reachable(c, s)
    ensures 0 <= Fuel(c, s) <= 14 * c.N() + 13
  {
    var acts :| Exec(c, Initial(c), acts) == Some(s);
    InitialInv(c);
    RunBurnsFuel(c, Initial(c), acts);
    FuelAtStart(c);
    Invariance(c, s);
    FuelIsPositive(c, s);
  }

  /** No run of n items, whatever its components and its schedule, has more than 14n + 13 steps besides the ticks. */
  lemma StepsAreBounded(c: Config, acts: seq<Action>)
    requires Exec(c, Initial(c), acts).Some?
    ensures |acts| - Ticks(acts) <= 14 * c.N() + 13
  {
    InitialInv(c);
    RunBurnsFuel(c, Initial(c), acts);
    FuelAtStart(c);
    FuelBound(c, Exec(c, Initial(c), acts).value);
  }

  lemma {:induction false} StillCancelled(c: Config, s: State, acts: seq<Action>)
    requires s.ctx.cancelled && Exec(c, s, acts).Some?
    ensures var x := Exec(c, s, acts).value.ctx; x.cancelled && x.cancelledAt == s.ctx.cancelledAt
  {
    if acts != [] {
      StillCancelled(c, s, acts[..|acts| - 1]);
    }
  }

  /** Once internalCtx is cancelled, Run can always go on without any component or caller. */
  lemma NeverStuck(c: Config, s: State)
    requires Reachable(c, s) && s.ctx.cancelled && !s.run.pc.Done?
    ensures exists a :: (Urgent(a) || a.Tick?) && Enabled(c, s, a)
  {
    Invariance(c, s);
    NoDeadlock(c, s);
    if a :| Urgent(a) && Enabled(c, s, a) {
    } else {
      assert Enabled(c, s, Tick);
    }
  }

  lemma StillReachable(c: Config, s: State, acts: seq<Action>)
    requires Reachable(c, s) && Exec(c, s, acts).Some?
    ensures Reachable(c, Exec(c, s, acts).value)
  {
    var before :| Exec(c, Initial(c), before) == Some(s);
    ExecSplit(c, Initial(c), before, acts);
  }

  lemma TicksAreBounded(c: Config, s: State, acts: seq<Action>)
    requires Reachable(c, s) && s.ctx.cancelled && Exec(c, s, acts).Some?
    ensures Ticks(acts) <= |acts|
    ensures !Exec(c, s, acts).value.run.pc.Done? ==> Ticks(acts) <= (c.N() + 1) * c.Grace()
    ensures |acts| - Ticks(acts) <= 14 * c.N() + 13
  {
    var s' := Exec(c, s, acts).value;
    StillReachable(c, s, acts);
    StillCancelled(c, s, acts);
    assert Inv(c, s) by { Invariance(c, s); }
    RunBurnsFuel(c, s, acts);
    BoundedShutdown(c, s');
    FuelBound(c, s);
    FuelBound(c, s');
    assert s.ctx.cancelledAt <= s.now;
  }

  /** From a state in which internalCtx is cancelled, every schedule that is long enough has seen Run return. */
  lemma ShutdownEnds(c: Config, s: State, acts: seq<Action>)
    requires Reachable(c, s) && s.ctx.cancelled && Exec(c, s, acts).Some?
    requires |acts| > 14 * c.N() + 13 + (c.N() + 1) * c.Grace()
    ensures Exec(c, s, acts).value.run.pc.Done?
  {
    TicksAreBounded(c, s, acts);
  }

  /** And until then there is always a step that needs no component and no caller. */
  lemma ShutdownGoesOn(c: Config, s: State, acts: seq<Action>)
    requires Reachable(c, s) && s.ctx.cancelled && Exec(c, s, acts).Some?
    requires !Exec(c, s, acts).value.run.pc.Done?
    ensures exists a :: (Urgent(a) || a.Tick?) && Enabled(c, Exec(c, s, acts).value, a)
  {
    StillReachable(c, s, acts);
    StillCancelled(c, s, acts);
    NeverStuck(c, Exec(c, s, acts).value);
  }
}
