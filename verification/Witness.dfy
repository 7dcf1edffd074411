/** Runs written out step by step, for the places where the code does not do what its documentation says. */
module Witness {
  import opened GoErrors
  import opened Lifecycle
  import opened Invariant
  import opened Engine
  import opened AppVerdict
  import R = RunOnce

  lemma Go(c: Config, s: State, a: Action) returns (s': State)
    requires Reachable(c, s) && Ready(c, s, a)
    ensures Ready(c, s, a) && s' == Apply(c, s, a) && Reachable(c, s')
  {
    s' := Apply(c, s, a);
    assert Enabled(c, s, a);
    StepReachable(c, s, a);
  }

  /** One item without Init. */
  const ONE := Config([false], 1)

  const BOOM := Leaf(100)

  // ---------- one item whose Start comes back with `e` and whose Stop is clean ----------

  /** Phase 3, with the item's Start in its body. */
  function Started(): State {
    State(Driver(Waiting, 0, [], Nil, Running, 0, [], Undecided, 0, [EvLaunch(0)]),
          [InStart], [true], [Uncalled], Chan([], Selecting, [], 0),
          Ctx(Nil, Nil, false, NoTrigger, 0), NoWaiter, false, 0)
  }

  /** The Stop loop begins. The Start has come back with `e`, which the drain goroutine has looked at. */
  function AtStops(x: Ctx, e: Error): State {
    State(Driver(Stopping(0), 0, [], Nil, Running, 0, [], Undecided, 0, [EvLaunch(0)]),
          [Exited(e, true)], [true], [Uncalled], Chan([], Selecting, [StartResult(0, e)], 1), x, NoWaiter, false, 0)
  }

  /** The Stop loop is over, and Run waits for the Start goroutines. */
  function AtDrain(x: Ctx, e: Error): State {
    State(Driver(DrainWait, 1, [], Nil, Running, 0, [StopRecord(StopOk, 0, 0)], Undecided, 0,
                 [EvLaunch(0), EvStop(0), EvStopEnd(0, StopOk)]),
          [Exited(e, true)], [true], [Stopped(Nil)], Chan([], Selecting, [StartResult(0, e)], 1), x, Blocked, false, 0)
  }

  /** Run has returned. */
  function Over(x: Ctx, e: Error): State {
    State(Driver(Done, 1, [], Multi([x.trigger]), Completed, 0, [StopRecord(StopOk, 0, 0)], Joined, 0,
                 [EvLaunch(0), EvStop(0), EvStopEnd(0, StopOk)]),
          [Exited(e, true)], [true], [Stopped(Nil)], Chan([], Gone, [StartResult(0, e)], 1), x, Closed, true, 0)
  }

  lemma ReachStarted()
    ensures Reachable(ONE, Started())
  {
    InitialReachable(ONE);
    var s := Initial(ONE);
    s := Go(ONE, s, Run(SkipInit));
    s := Go(ONE, s, Run(CreateContext));
    s := Go(ONE, s, Run(Launch));
    s := Go(ONE, s, Run(SpawnDrain));
    s := Go(ONE, s, Start(0, Enter));
    assert s == Started();
  }

  /** The trigger is the caller's error. */
  function ByParent(perr: Error): Ctx {
    Ctx(perr, perr, true, FromParent, 0)
  }

  /** The trigger is the error of the Start. */
  function ByStart(e: Error): Ctx {
    Ctx(Wrap(e), Nil, true, FromStart(1), 0)
  }

  /** The caller's context has ended, and the Start has not yet. */
  function Cancelled(perr: Error): State {
    Started().(run := Started().run.(pc := Stopping(0)), ctx := ByParent(perr))
  }

  lemma ReachCancelled(perr: Error)
    requires !perr.Nil?
    ensures Reachable(ONE, Cancelled(perr))
  {
    ReachStarted();
    var s := Started();
    s := Go(ONE, s, CancelParent(perr));
    s := Go(ONE, s, Propagate);
    s := Go(ONE, s, Run(Wake));
    s := Go(ONE, s, Run(ReadParent));
    s := Go(ONE, s, Run(SetParentTrigger));
    assert s == Cancelled(perr);
  }

  /** The Start has come back with `e`, and the drain goroutine is about to look at it. */
  function Answered(s: State, e: Error): State {
    s.(starts := [Exited(e, true)], chan := Chan([], Handling(StartResult(0, e)), [StartResult(0, e)], 1))
  }

  lemma ReachAnswered(s0: State, e: Error)
    requires Reachable(ONE, s0) && s0.starts == [InStart] && s0.chan == Chan([], Selecting, [], 0)
    ensures Reachable(ONE, Answered(s0, e))
  {
    var s := Go(ONE, s0, Start(0, Leave(Returned(e))));
    s := Go(ONE, s, Start(0, Post));
    s := Go(ONE, s, Start(0, Exit));
    s := Go(ONE, s, Drain(Receive));
    assert s == Answered(s0, e);
  }

  /** The caller's context ends with `perr`, and then the Start comes back with `e`, which changes nothing. */
  lemma ReachByParent(perr: Error, e: Error)
    requires !perr.Nil?
    ensures Reachable(ONE, AtStops(ByParent(perr), e))
  {
    ReachCancelled(perr);
    ReachAnswered(Cancelled(perr), e);
    var s := Go(ONE, Answered(Cancelled(perr), e), Drain(Handle));
    assert s == AtStops(ByParent(perr), e);
  }

  /** The Start comes back with `e` while the caller's context lives. */
  lemma ReachByStart(e: Error)
    requires !e.Nil?
    ensures Reachable(ONE, AtStops(ByStart(e), e))
  {
    ReachStarted();
    ReachAnswered(Started(), e);
    var s := Go(ONE, Answered(Started(), e), Drain(Handle));
    s := Go(ONE, s, Run(Wake));
    s := Go(ONE, s, Run(ReadParent));
    assert s == AtStops(ByStart(e), e);
  }

  lemma ReachDrain(x: Ctx, e: Error)
    requires Reachable(ONE, AtStops(x, e))
    ensures Reachable(ONE, AtDrain(x, e))
  {
    var s := AtStops(x, e);
    s := Go(ONE, s, Run(CallStop));
    s := Go(ONE, s, StopReturn(0, Returned(Nil)));
    s := Go(ONE, s, Run(StopFinished));
    s := Go(ONE, s, Run(EnterDrain));
    assert s == AtDrain(x, e);
  }

  lemma ReachOver(x: Ctx, e: Error)
    requires Reachable(ONE, AtDrain(x, e)) && !x.trigger.Nil?
    ensures Reachable(ONE, Over(x, e))
  {
    var s := AtDrain(x, e);
    s := Go(ONE, s, CloseDoneAll);
    s := Go(ONE, s, Run(DrainFinished));
    s := Go(ONE, s, Run(CloseShutdown));
    s := Go(ONE, s, Drain(Quit));
    NonNilOfClean([x.trigger]);
    s := Go(ONE, s, Run(Return));
    assert s == Over(x, e);
  }

  /** Nil from App.Run does not say that no Start failed: any error that comes after a cancellation is dropped. */
  lemma StartErrorCanBeDropped(e: Error)
    ensures exists s ::
      && Reachable(ONE, s) && s.run.exit.Completed? && s.starts == [Exited(e, true)]
      && WithoutCanceled(s.run.result) == Nil
  {
    ReachByParent(CANCELED, e);
    ReachDrain(ByParent(CANCELED), e);
    ReachOver(ByParent(CANCELED), e);
    RunVerdict(ONE, Over(ByParent(CANCELED), e));
    assert CleanEnd(Over(ByParent(CANCELED), e));
  }

  /** The documentation of App.Run blames a non-nil result on a Start, a Stop or a timeout. Here no Start and no Stop
      failed and nothing timed out; the caller's context ended with its deadline. */
  lemma DeadlineIsReported()
    ensures exists s ::
      && Reachable(ONE, s) && s.run.exit.Completed? && s.ctx.parent == DEADLINE_EXCEEDED
      && s.starts == [Exited(Nil, true)] && s.stops == [Stopped(Nil)] && s.run.drainVerdict.Joined?
      && Is(WithoutCanceled(s.run.result), DEADLINE_EXCEEDED)
  {
    var x := ByParent(DEADLINE_EXCEEDED);
    ReachByParent(DEADLINE_EXCEEDED, Nil);
    ReachDrain(x, Nil);
    ReachOver(x, Nil);
    var members := [DEADLINE_EXCEEDED];
    assert !Is(members[0], CANCELED) && Is(members[0], DEADLINE_EXCEEDED);
    SentinelSurvives(members, DEADLINE_EXCEEDED);
    assert Over(x, Nil).run.result == Multi(members);
  }

  /** A Start that fails with a real error joined to a cancellation, and is the cause of the shutdown: the engine's
      result carries the real error, and App.Run returns nil. */
  lemma FailureCanBeStripped()
    ensures exists s ::
      && Reachable(ONE, s) && s.run.exit.Completed? && s.ctx.parent.Nil?
      && s.starts == [Exited(Multi([CANCELED, BOOM]), true)]
      && s.ctx.trigger == Wrap(Multi([CANCELED, BOOM]))
      && Is(s.run.result, BOOM) && WithoutCanceled(s.run.result) == Nil
  {
    var e := Multi([CANCELED, BOOM]);
    ReachByStart(e);
    ReachDrain(ByStart(e), e);
    ReachOver(ByStart(e), e);
    LostFailure(BOOM);
    assert Over(ByStart(e), e).run.result == Multi([Wrap(e)]);
  }

  // ---------- RunOnce with no registered component ----------

  lemma Once(o: R.Once, a: R.OnceAction) returns (o': R.Once)
    requires R.OnceConfig(ONE) && R.OnceReachable(ONE, o) && R.OnceEnabled(ONE, o, a)
    ensures R.OnceEnabled(ONE, o, a) && o' == R.OnceApply(ONE, o, a) && R.OnceReachable(ONE, o')
  {
    o' := R.OnceApply(ONE, o, a);
    var acts :| R.OnceExec(ONE, R.OnceInitial(ONE), acts) == Some(o);
    assert (acts + [a])[..|acts|] == acts;
    assert R.OnceExec(ONE, R.OnceInitial(ONE), acts + [a]) == Some(o');
  }

  lemma Step(o: R.Once, a: Action) returns (o': R.Once)
    requires R.OnceConfig(ONE) && R.OnceReachable(ONE, o) && Ready(ONE, o.eng, a) && R.FnItemObeys(ONE, o.fn, a)
    ensures Ready(ONE, o.eng, a) && R.OnceEnabled(ONE, o, R.Eng(a))
    ensures o' == R.OnceApply(ONE, o, R.Eng(a)) && R.OnceReachable(ONE, o')
  {
    assert !a.Tick?;
    o' := Once(o, R.Eng(a));
  }

  /** fn is running; the caller cancelled. */
  function FnRunning(): R.Once {
    R.Once(Cancelled(CANCELED), R.InFn, Nil, false, true, None, 0)
  }

  /** The engine waits for fn's goroutine, at time `now`. */
  function Draining(now: nat): State {
    State(Driver(DrainWait, 1, [], Nil, Running, 0, [StopRecord(StopOk, 0, 0)], Undecided, 0,
                 [EvLaunch(0), EvStop(0), EvStopEnd(0, StopOk)]),
          [InStart], [true], [Stopped(Nil)], Chan([], Selecting, [], 0), ByParent(CANCELED), Blocked, false, now)
  }

  /** The engine has given up on fn's goroutine, at the deadline, and waits for the drain goroutine no more. */
  function Joining(): State {
    Draining(1).(run := Draining(1).run.(pc := Pc.Joining, stopErrs := [Wrap(STOP_TIMEOUT)], drainVerdict := Expired),
                 chan := Chan([], Gone, [], 0), shutdownDone := true)
  }

  /** And Run has returned. */
  function GaveUp(): State {
    Joining().(run := Joining().run.(pc := Done, result := Multi([CANCELED, Wrap(STOP_TIMEOUT)]),
                                     exit := Completed, returnedAt := 1))
  }

  function AtDeadline(fn: R.Fn, fnErr: Error, fnDone: bool): R.Once {
    R.Once(Draining(1), fn, fnErr, fnDone, true, None, 1)
  }

  function GivenUp(fn: R.Fn, fnErr: Error, fnDone: bool): R.Once {
    R.Once(GaveUp(), fn, fnErr, fnDone, true, Some((fnErr, fnDone)), 1)
  }

  lemma ReachFnStarted() returns (o: R.Once)
    ensures o == R.Once(Started(), R.InFn, Nil, false, false, None, 0) && R.OnceReachable(ONE, o)
  {
    o := R.OnceInitial(ONE);
    assert R.OnceExec(ONE, o, []) == Some(o);
    o := Step(o, Run(SkipInit));
    o := Step(o, Run(CreateContext));
    o := Step(o, Run(Launch));
    o := Step(o, Run(SpawnDrain));
    o := Step(o, Start(0, Enter));
    assert o.eng == Started();
  }

  lemma ReachFnRunning()
    ensures R.OnceReachable(ONE, FnRunning())
  {
    var o := ReachFnStarted();
    o := Step(o, CancelParent(CANCELED));
    o := Step(o, Propagate);
    o := Step(o, Run(Wake));
    o := Step(o, Run(ReadParent));
    o := Step(o, Run(SetParentTrigger));
    assert o == FnRunning();
  }

  /** The Stop of fn's item has returned. */
  function StopBack(): State {
    Cancelled(CANCELED).(
      run := Driver(StopWait(0), 1, [], Nil, Running, 0, [], Undecided, 0, [EvLaunch(0), EvStop(0)]),
      stops := [Stopped(Nil)])
  }

  lemma ReachStopBack() returns (o: R.Once)
    ensures o == FnRunning().(eng := StopBack()) && R.OnceReachable(ONE, o)
  {
    ReachFnRunning();
    o := FnRunning();
    o := Step(o, Run(CallStop));
    o := Step(o, StopReturn(0, Returned(Nil)));
    assert o == FnRunning().(eng := StopBack());
  }

  lemma ReachDraining() returns (o: R.Once)
    ensures o == FnRunning().(eng := Draining(0)) && R.OnceReachable(ONE, o)
  {
    o := ReachStopBack();
    o := Step(o, Run(StopFinished));
    o := Step(o, Run(EnterDrain));
    assert o == FnRunning().(eng := Draining(0));
  }

  lemma DrainingRests()
    ensures Quiescent(ONE, Draining(0))
  {
    assert !Draining(0).starts[0].Exited?;
  }

  /** fn returns at the tick of the deadline. */
  lemma ReachDeadline()
    ensures R.OnceReachable(ONE, AtDeadline(R.FnBack(BOOM), Nil, false))
  {
    var o := ReachDraining();
    DrainingRests();
    o := Once(o, R.Eng(Tick));
    o := Once(o, R.FnReturn(Returned(BOOM)));
    assert o == AtDeadline(R.FnBack(BOOM), Nil, false);
  }

  lemma ReachJoining(fn: R.Fn, fnErr: Error, fnDone: bool)
    requires R.OnceReachable(ONE, AtDeadline(fn, fnErr, fnDone))
    ensures R.OnceReachable(ONE, AtDeadline(fn, fnErr, fnDone).(eng := Joining()))
  {
    var o := AtDeadline(fn, fnErr, fnDone);
    o := Step(o, Run(DrainDeadline));
    assert o.eng.run.stopErrs == [Wrap(STOP_TIMEOUT)];
    o := Step(o, Run(CloseShutdown));
    o := Step(o, Drain(Quit));
    assert o.eng == Joining();
  }

  lemma ReachGivenUp(fn: R.Fn, fnErr: Error, fnDone: bool)
    requires R.OnceReachable(ONE, AtDeadline(fn, fnErr, fnDone))
    ensures R.OnceReachable(ONE, GivenUp(fn, fnErr, fnDone))
  {
    ReachJoining(fn, fnErr, fnDone);
    var o := AtDeadline(fn, fnErr, fnDone).(eng := Joining());
    assert [CANCELED] + [Wrap(STOP_TIMEOUT)] == [CANCELED, Wrap(STOP_TIMEOUT)];
    NonNilOfClean([CANCELED, Wrap(STOP_TIMEOUT)]);
    o := Step(o, Run(Return));
    assert o.eng == GaveUp();
    o := Once(o, R.Capture);
  }

  /** fn returned an error before the engine did, at the very tick at which the drain timed out, and RunOnce returns
      without it. */
  lemma FnErrorCanBeLost()
    ensures exists o ::
      && R.OnceReachable(ONE, o) && o.captured == Some((Nil, false)) && o.fn == R.FnBack(BOOM)
      && o.endedAt == o.eng.run.timer == o.eng.run.returnedAt
      && !Is(R.OnceResult(o.eng.run.result, o.captured.value.0, o.captured.value.1), BOOM)
  {
    ReachDeadline();
    ReachGivenUp(R.FnBack(BOOM), Nil, false);
    var members := [CANCELED, Wrap(STOP_TIMEOUT)];
    assert !Reaches(Wrap(STOP_TIMEOUT), BOOM);
    SentinelSurvives(members, BOOM);
    assert GaveUp().run.result == Multi(members);
  }

  /** At the same tick, with the engine giving up as well, it may also be in the result. */
  lemma FnErrorCanBeSaved()
    ensures exists o ::
      && R.OnceReachable(ONE, o) && o.captured == Some((BOOM, true)) && o.eng.run.drainVerdict.Expired?
      && o.endedAt == o.eng.run.timer == o.eng.run.returnedAt
      && Is(R.OnceResult(o.eng.run.result, o.captured.value.0, o.captured.value.1), BOOM)
  {
    ReachDeadline();
    var o := AtDeadline(R.FnBack(BOOM), Nil, false);
    o := Once(o, R.Publish);
    assert o == AtDeadline(R.Published(BOOM), BOOM, true);
    ReachGivenUp(R.Published(BOOM), BOOM, true);
    R.SeenErrorIsKept(GaveUp().run.result, BOOM);
  }
}
