/** When things happen in the engine: exactly when time can pass, the times of the shutdown, and that whatever comes
    back before its deadline is never reported as late. */
module Deadlines {
  import opened GoErrors
  import opened Lifecycle
  import opened Invariant
  import opened Engine

  // ---------- when time passes ----------

  /** Nothing is on its way between a Start goroutine, the channel and the drain goroutine. */
  predicate NothingInTransit(s: State) {
    && (forall i | 0 <= i < |s.starts| :: s.starts[i].Unlaunched? || s.starts[i].InStart? || s.starts[i].Exited?)
    && !s.chan.drainer.Handling?
    && (s.chan.drainer.Selecting? ==> s.chan.queue == [] && !s.shutdownDone)
  }

  /** The goroutine of Run waits for a component, the caller or the clock, or is over. */
  predicate RunWaits(c: Config, s: State) {
    match s.run.pc
    case InitCall(_) => true
    case Waiting => !s.ctx.cancelled
    case StopWait(k) => k < c.N() <= |s.stops| && s.stops[c.N() - 1 - k].InStop? && s.now < s.run.timer
    case DrainWait => !AllExited(s.starts) && s.now < s.run.timer
    case Done => true
    case _ => false
  }

  predicate CallerIsHeard(s: State) {
    !s.ctx.parent.Nil? && !s.ctx.cancelled ==> s.run.pc.InitCall? || s.run.pc.Done?
  }

  lemma RestOfOthers(c: Config, s: State)
    requires Reachable(c, s) && Quiescent(c, s)
    ensures NothingInTransit(s)
  {
    forall i | 0 <= i < |s.starts| ensures s.starts[i].Unlaunched? || s.starts[i].InStart? || s.starts[i].Exited? {
      if Between(s.starts[i]) {
        GoroutineGoesOn(c, s, i);
        var act: StartStep :| !act.Leave? && StartReady(c, s, i, act);
        NotQuiescent(c, s, Start(i, act));
      }
    }
    if DrainReady(s, Handle) { NotQuiescent(c, s, Drain(Handle)); }
    if DrainReady(s, Receive) { NotQuiescent(c, s, Drain(Receive)); }
    if DrainReady(s, Quit) { NotQuiescent(c, s, Drain(Quit)); }
  }

  lemma NotQuiescent(c: Config, s: State, a: Action)
    requires Urgent(a) && Ready(c, s, a)
    ensures !Quiescent(c, s)
  {
  }

  lemma RestOfRun(c: Config, s: State)
    requires Bounds(c, s.run) && Shape(c, s) && Launches(c, s.run, s.starts, s.running) && StopCalls(c, s.run, s.stops)
    requires Waits(s.run, s.waiter, s.starts) && Quiescent(c, s)
    ensures RunWaits(c, s) && !(s.waiter.Blocked? && AllExited(s.starts)) && CallerIsHeard(s)
  {
    if !AtRest(s) { NextIsReady(c, s); }
    if RunReady(c, s, Wake) { NotQuiescent(c, s, Run(Wake)); }
    if RunReady(c, s, StopFinished) { NotQuiescent(c, s, Run(StopFinished)); }
    if RunReady(c, s, DrainFinished) { NotQuiescent(c, s, Run(DrainFinished)); }
    if Ready(c, s, CloseDoneAll) { NotQuiescent(c, s, CloseDoneAll); }
    if Ready(c, s, Propagate) { NotQuiescent(c, s, Propagate); }
  }

  lemma RestFollows(c: Config, s: State)
    requires Bounds(c, s.run) && Shape(c, s) && Launches(c, s.run, s.starts, s.running) && StopCalls(c, s.run, s.stops)
    requires Waits(s.run, s.waiter, s.starts)
    requires RunWaits(c, s) && NothingInTransit(s) && !(s.waiter.Blocked? && AllExited(s.starts)) && CallerIsHeard(s)
    ensures Quiescent(c, s)
  {
    forall a: Action | Urgent(a) ensures !Ready(c, s, a) {
      match a
      case Run(step) =>
      case Start(i, act) =>
      case _ =>
    }
  }

  /** Time can pass exactly when Run waits, nothing is in transit, the goroutine that waits for all Starts has nothing
      to report, and the caller's cancellation has arrived. A component in its Init, Start or Stop never holds the clock. */
  lemma TimePassesWhen(c: Config, s: State)
    requires Reachable(c, s)
    ensures Enabled(c, s, Tick) <==>
      RunWaits(c, s) && NothingInTransit(s) && !(s.waiter.Blocked? && AllExited(s.starts)) && CallerIsHeard(s)
  {
    assert Bounds(c, s.run) && Shape(c, s) && Launches(c, s.run, s.starts, s.running) && StopCalls(c, s.run, s.stops)
      && Waits(s.run, s.waiter, s.starts) by {
      Invariance(c, s);
    }
    if Quiescent(c, s) {
      RestOfOthers(c, s);
      RestOfRun(c, s);
    } else if RunWaits(c, s) && NothingInTransit(s) && !(s.waiter.Blocked? && AllExited(s.starts)) && CallerIsHeard(s) {
      RestFollows(c, s);
    }
  }

  // ---------- who is free to do what ----------

  /** Components come back as they like, by any error, nil or a panic, and the caller may cancel with any error. */
  lemma ComponentsAreFree(c: Config, s: State, i: nat, call: Call, err: Error)
    ensures s.run.pc.InitCall? ==> Enabled(c, s, Run(InitReturn(call)))
    ensures i < |s.starts| && s.starts[i].InStart? ==> Enabled(c, s, Start(i, Leave(call)))
    ensures i < |s.stops| && s.stops[i].InStop? ==> Enabled(c, s, StopReturn(i, call))
    ensures s.ctx.parent.Nil? && !err.Nil? ==> Enabled(c, s, CancelParent(err))
  {
  }

  /** A select with both of its channels ready may take either branch. */
  lemma EitherBranch(c: Config, s: State, i: nat)
    requires Reachable(c, s)
    ensures i < |s.starts| && s.starts[i].Holding? && s.shutdownDone ==>
      Enabled(c, s, Start(i, Post)) && Enabled(c, s, Start(i, Drop))
    ensures s.chan.drainer.Selecting? && s.chan.queue != [] && s.shutdownDone ==>
      Enabled(c, s, Drain(Receive)) && Enabled(c, s, Drain(Quit))
    ensures s.run.pc == StopWait(i) && i < c.N() == |s.stops| && s.stops[c.N() - 1 - i].Stopped? && s.run.timer <= s.now ==>
      Enabled(c, s, Run(StopFinished)) && Enabled(c, s, Run(StopDeadline))
    ensures s.run.pc.DrainWait? && s.waiter.Closed? && s.run.timer <= s.now ==>
      Enabled(c, s, Run(DrainFinished)) && Enabled(c, s, Run(DrainDeadline))
  {
    if i < |s.starts| && s.starts[i].Holding? { SendNeverBlocks(c, s, i); }
  }

  // ---------- the times of the shutdown ----------

  /** When the turn of the Stop loop that is next, or the wait after the last one, began. */
  function TurnTime(s: State): nat {
    if s.run.records == [] then s.ctx.cancelledAt else s.run.records[|s.run.records| - 1].ended
  }

  /** When Run returned, or now. */
  function RunTime(s: State): nat {
    if s.run.pc.Done? then s.run.returnedAt else s.now
  }

  ghost predicate Timeline(c: Config, s: State) {
    var r := s.run;
    && (forall k | 0 < k < |r.records| :: r.records[k].began == r.records[k - 1].ended)
    && (r.records != [] ==> r.records[0].began == s.ctx.cancelledAt)
    && (r.pc.Stopping? ==> s.now == TurnTime(s))
    && (r.pc.StopWait? ==> r.began == TurnTime(s))
    && (PastStops(r) ==> r.timer == TurnTime(s) + c.Grace())
    && (r.drainVerdict.Expired? ==> RunTime(s) == r.timer)
    && (r.drainVerdict.Joined? ==> TurnTime(s) <= RunTime(s) <= r.timer)
    && (r.pc.DrainWait? ==> TurnTime(s) <= s.now)
  }

  lemma BootTimeline(c: Config, s: State, step: RunStep)
    requires Bounds(c, s.run) && Timeline(c, s) && RunReady(c, s, step) && Boot(step)
    ensures Timeline(c, RunApply(c, s, step))
  {
  }

  lemma TurnTimeline(c: Config, s: State, step: RunStep)
    requires Bounds(c, s.run) && Timeline(c, s) && RunReady(c, s, step) && (step.StopFinished? || step.StopDeadline?)
    ensures Timeline(c, RunApply(c, s, step))
  {
  }

  lemma LaterTimeline(c: Config, s: State, step: RunStep)
    requires Bounds(c, s.run) && Timeline(c, s) && RunReady(c, s, step) && !Boot(step)
    requires !step.StopFinished? && !step.StopDeadline? && !step.SkipStop?
    requires step.ReadParent? || step.SetParentTrigger? ==> s.ctx.cancelled && s.now == s.ctx.cancelledAt
    requires s.run.pc.DrainWait? ==> s.now <= s.run.timer
    ensures Timeline(c, RunApply(c, s, step))
  {
  }

  lemma RunTimeline(c: Config, s: State, step: RunStep)
    requires Inv(c, s) && Timeline(c, s) && RunReady(c, s, step)
    ensures Timeline(c, RunApply(c, s, step))
  {
    assert && Bounds(c, s.run) && !step.SkipStop?
           && (step.ReadParent? || step.SetParentTrigger? ==> s.ctx.cancelled && s.now == s.ctx.cancelledAt)
           && (s.run.pc.DrainWait? ==> s.now <= s.run.timer) by {
      NoSkip(c, s);
    }
    if Boot(step) { BootTimeline(c, s, step); }
    else if step.StopFinished? || step.StopDeadline? { TurnTimeline(c, s, step); }
    else { LaterTimeline(c, s, step); }
  }

  lemma OtherTimeline(c: Config, s: State, a: Action)
    requires Ready(c, s, a) && !a.Run? && Timeline(c, s) && Bounds(c, s.run)
    requires Winding(s.run) || s.run.records != [] ==> s.ctx.cancelled
    ensures Timeline(c, Apply(c, s, a))
  {
    var s' := Apply(c, s, a);
    assert s'.run == s.run && s'.now == s.now;
    assert s.ctx.cancelled ==> s'.ctx.cancelledAt == s.ctx.cancelledAt;
  }

  lemma TickTimeline(c: Config, s: State)
    requires Timeline(c, s) && RunWaits(c, s) && Bounds(c, s.run)
    ensures Timeline(c, s.(now := s.now + 1))
  {
  }

  lemma StepTimeline(c: Config, s: State, a: Action)
    requires Reachable(c, s) && Timeline(c, s) && Enabled(c, s, a)
    ensures Timeline(c, Apply(c, s, a))
  {
    if a.Run? {
      assert Inv(c, s) by { Invariance(c, s); }
      RunTimeline(c, s, a.step);
    } else {
      assert Bounds(c, s.run) && (Winding(s.run) || s.run.records != [] ==> s.ctx.cancelled) by { Invariance(c, s); }
      if a.Tick? {
        TimePassesWhen(c, s);
        TickTimeline(c, s);
      } else {
        OtherTimeline(c, s, a);
      }
    }
  }

  lemma {:induction false} OnTimeline(c: Config, acts: seq<Action>)
    requires Exec(c, Initial(c), acts).Some?
    ensures Timeline(c, Exec(c, Initial(c), acts).value)
  {
    if acts != [] {
      var last := |acts| - 1;
      var s := Exec(c, Initial(c), acts[..last]).value;
      OnTimeline(c, acts[..last]);
      assert Reachable(c, s);
      StepTimeline(c, s, acts[last]);
    }
  }

  /** The timetable of a shutdown, with stopTimeout itself (a negative one counts as none): the first Stop begins at the
      cancellation, each other one when the one before it was over, the drain after the last; each Stop and the drain is
      given up exactly stopTimeout after its beginning and never waited for longer. */
  lemma Timetable(c: Config, s: State)
    requires Reachable(c, s) && s.run.exit.Completed?
    ensures |s.run.records| == c.N()
    ensures var g, rs := if c.stopTimeout > 0 then c.stopTimeout else 0, s.run.records;
      && (rs != [] ==> rs[0].began == s.ctx.cancelledAt)
      && (forall k | 0 < k < |rs| :: rs[k].began == rs[k - 1].ended)
      && (forall k | 0 <= k < |rs| :: rs[k].began <= rs[k].ended <= rs[k].began + g)
      && (forall k | 0 <= k < |rs| && rs[k].verdict.StopExpired? :: rs[k].ended == rs[k].began + g)
      && TurnTime(s) <= s.run.returnedAt <= TurnTime(s) + g
      && (s.run.drainVerdict.Expired? ==> s.run.returnedAt == TurnTime(s) + g)
  {
    assert Timeline(c, s) by {
      var acts :| Exec(c, Initial(c), acts) == Some(s);
      OnTimeline(c, acts);
    }
    assert s.run.pc.Done? && |s.run.records| == c.N() && !s.run.drainVerdict.Undecided?
      && (forall k | 0 <= k < |s.run.records| :: InTime(c.Grace(), s.run.records[k])) by {
      Invariance(c, s);
    }
  }

  // ---------- in time is never late ----------

  /** The Stop of the current turn is back before the deadline, with `e`; or its turn is over and says so. */
  predicate StopCounts(c: Config, s: State, k: nat, e: Error) {
    if s.run.pc == StopWait(k) then
      k < c.N() == |s.stops| && s.stops[c.N() - 1 - k] == Stopped(e) && s.now < s.run.timer && |s.run.records| == k
    else
      k < |s.run.records| && s.run.records[k].verdict == if e.Nil? then StopOk else StopFailed(e)
  }

  lemma StopCountsStep(c: Config, s: State, k: nat, e: Error, a: Action)
    requires Bounds(c, s.run) && StopCounts(c, s, k, e) && Enabled(c, s, a)
    requires a.Run? && a.step.CallStop? ==> s.run.pc.Stopping?
    ensures StopCounts(c, Apply(c, s, a), k, e)
  {
    if a.Tick? && s.run.pc == StopWait(k) { NotQuiescent(c, s, Run(StopFinished)); }
  }

  lemma {:induction false} StopCountsOn(c: Config, s: State, k: nat, e: Error, acts: seq<Action>)
    requires Inv(c, s) && StopCounts(c, s, k, e) && Exec(c, s, acts).Some?
    ensures StopCounts(c, Exec(c, s, acts).value, k, e)
  {
    if acts != [] {
      var last := |acts| - 1;
      var mid := Exec(c, s, acts[..last]).value;
      StopCountsOn(c, s, k, e, acts[..last]);
      assert Bounds(c, mid.run) by { ExecKeeps(c, s, acts[..last]); }
      StopCountsStep(c, mid, k, e, acts[last]);
    }
  }

  /** A Stop that is back before its deadline is never reported as late: however the run goes on, its turn ends with
      what it came back with. */
  lemma PromptStopCounts(c: Config, s: State, k: nat, e: Error, acts: seq<Action>)
    requires Reachable(c, s) && s.run.pc == StopWait(k) && s.now < s.run.timer
    requires k < c.N() == |s.stops| && s.stops[c.N() - 1 - k] == Stopped(e)
    requires Exec(c, s, acts).Some? && k < |Exec(c, s, acts).value.run.records|
    ensures Exec(c, s, acts).value.run.records[k].verdict == if e.Nil? then StopOk else StopFailed(e)
  {
    assert Inv(c, s) && |s.run.records| == k by { Invariance(c, s); }
    StopCountsOn(c, s, k, e, acts);
    assert Bounds(c, Exec(c, s, acts).value.run) by { ExecKeeps(c, s, acts); }
  }

  predicate DrainCounts(s: State) {
    if s.run.pc.DrainWait? then AllExited(s.starts) && !s.waiter.NoWaiter? && s.now < s.run.timer
    else s.run.drainVerdict.Joined?
  }

  lemma DrainCountsStep(c: Config, s: State, a: Action)
    requires Bounds(c, s.run) && DrainCounts(s) && Enabled(c, s, a)
    ensures DrainCounts(Apply(c, s, a))
  {
    if a.Tick? && s.run.pc.DrainWait? {
      NotQuiescent(c, s, if s.waiter.Closed? then Run(DrainFinished) else CloseDoneAll);
    }
  }

  /** And if every Start is back before the deadline of the drain, no drain entry appears. */
  lemma {:induction false} PromptDrainCounts(c: Config, s: State, acts: seq<Action>)
    requires Reachable(c, s) && s.run.pc.DrainWait? && AllExited(s.starts) && s.now < s.run.timer
    requires Exec(c, s, acts).Some?
    ensures DrainCounts(Exec(c, s, acts).value) && !Exec(c, s, acts).value.run.drainVerdict.Expired?
  {
    assert Inv(c, s) by { Invariance(c, s); }
    if acts != [] {
      var last := |acts| - 1;
      var mid := Exec(c, s, acts[..last]).value;
      PromptDrainCounts(c, s, acts[..last]);
      assert Bounds(c, mid.run) by { ExecKeeps(c, s, acts[..last]); }
      DrainCountsStep(c, mid, acts[last]);
      assert Bounds(c, Exec(c, s, acts).value.run) by { ExecKeeps(c, s, acts); }
    }
  }
}
