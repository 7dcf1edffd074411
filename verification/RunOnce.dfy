/** App.RunOnce: the engine with one more item at the end, whose Start calls fn, publishes what fn
    returned, cancels the run context and returns nil. The closure's lines are steps of their own,
    interleaved with all the steps of the engine. */
module RunOnce {
  import opened GoErrors
  import opened Lifecycle
  import opened Invariant
  import opened Engine
  import opened AppVerdict
  import opened Termination
  import Registration

  /** Where the closure is; `Published` has set fnErr and fnDone, `Signalled` has called cancel as well. */
  datatype Fn =
    | NotCalled
    | InFn
    | FnBack(err: Error)
    | Published(err: Error)
    | Signalled(err: Error)
    | FnPanicked

  datatype Once = Once(
    eng: State,
    fn: Fn,
    fnErr: Error,
    fnDone: bool,
    outside: bool,                                    // the caller or a signal cancelled the run context
    captured: Lifecycle.Option<(Error, bool)>,        // fnErr and fnDone as RunOnce read them
    endedAt: nat)                                     // when fn returned or panicked, if it has

  datatype OnceAction =
    | Eng(a: Action)
    | FnReturn(call: Call)
    | Publish
    | Signal
    | Capture

  /** The registered components, then fn's item, which has no Init. */
  predicate OnceConfig(c: Config) {
    c.N() > 0 && !c.hasInit[c.N() - 1]
  }

  function FnItem(c: Config): nat
    requires OnceConfig(c)
  {
    c.N() - 1
  }

  /** What the engine sees of a list of items. */
  function EngineConfig(items: seq<Registration.Item>, stopTimeout: int): Config {
    Config(seq(|items|, i requires 0 <= i < |items| => items[i].hasInit), stopTimeout)
  }

  /** RunOnce's append: whatever was registered, fn's item comes after all of it. */
  lemma FnItemIsLast(items: seq<Registration.Item>, fnItem: Registration.Item, stopTimeout: int)
    requires !fnItem.hasInit
    ensures var c := EngineConfig(items + [fnItem], stopTimeout);
      && OnceConfig(c) && FnItem(c) == |items| && c.N() == |items| + 1
      && c.hasInit[..|items|] == EngineConfig(items, stopTimeout).hasInit
  {
  }

  function OnceInitial(c: Config): Once {
    Once(Initial(c), NotCalled, Nil, false, false, None, 0)
  }

  /** The item's Start returns nil after cancelling, or passes on fn's panic; its Stop returns nil. */
  predicate FnItemObeys(c: Config, fn: Fn, a: Action)
    requires OnceConfig(c)
  {
    match a
    case Start(i, Leave(call)) =>
      i == FnItem(c) ==> (fn.Signalled? && call == Returned(Nil)) || (fn.FnPanicked? && call == Panicked)
    case StopReturn(i, call) => i == FnItem(c) ==> call == Returned(Nil)
    case _ => true
  }

  /** A line of the closure, of its item's Stop, or of RunOnce after the engine's return is next: like the steps
      of the engine itself, these take no time. */
  predicate Owes(c: Config, o: Once)
    requires OnceConfig(c)
  {
    || o.fn.FnBack? || o.fn.Published?
    || ((o.fn.Signalled? || o.fn.FnPanicked?) && FnItem(c) < |o.eng.starts| && o.eng.starts[FnItem(c)].InStart?)
    || (FnItem(c) < |o.eng.stops| && o.eng.stops[FnItem(c)].InStop?)
    || (o.eng.run.pc.Done? && o.captured.None?)
  }

  ghost predicate OnceEnabled(c: Config, o: Once, a: OnceAction)
    requires OnceConfig(c)
  {
    match a
    case Eng(e) => Enabled(c, o.eng, e) && FnItemObeys(c, o.fn, e) && (e.Tick? ==> !Owes(c, o))
    case FnReturn(_) => o.fn.InFn?
    case Publish => o.fn.FnBack?
    case Signal => o.fn.Published?
    case Capture => o.eng.run.pc.Done? && o.captured.None?
  }

  ghost function OnceApply(c: Config, o: Once, a: OnceAction): Once
    requires OnceConfig(c) && OnceEnabled(c, o, a)
  {
    match a
    case Eng(e) =>
      o.(eng := Apply(c, o.eng, e),
         fn := if e == Start(FnItem(c), Enter) then InFn else o.fn,
         outside := o.outside || e.CancelParent?)
    case FnReturn(call) => o.(fn := if call.Panicked? then FnPanicked else FnBack(call.err), endedAt := o.eng.now)
    case Publish => o.(fn := Published(o.fn.err), fnErr := o.fn.err, fnDone := true)
    case Signal =>
      o.(fn := Signalled(o.fn.err),
         eng := if o.eng.ctx.parent.Nil? then Apply(c, o.eng, CancelParent(CANCELED)) else o.eng)
    case Capture => o.(captured := Some((o.fnErr, o.fnDone)))
  }

  ghost function OnceExtend(c: Config, r: Lifecycle.Option<Once>, a: OnceAction): Lifecycle.Option<Once>
    requires OnceConfig(c)
  {
    match r
    case None => None
    case Some(o) => if OnceEnabled(c, o, a) then Some(OnceApply(c, o, a)) else None
  }

  ghost function OnceExec(c: Config, o0: Once, acts: seq<OnceAction>): Lifecycle.Option<Once>
    requires OnceConfig(c)
  {
    if acts == [] then Some(o0)
    else OnceExtend(c, OnceExec(c, o0, acts[..|acts| - 1]), acts[|acts| - 1])
  }

  ghost predicate OnceReachable(c: Config, o: Once)
    requires OnceConfig(c)
  {
    exists acts: seq<OnceAction> :: OnceExec(c, OnceInitial(c), acts) == Some(o)
  }

  /** The last lines of RunOnce. */
  function OnceResult(lifecycleErr: Error, captured: Error, done: bool): Error {
    var stripped := WithoutCanceled(lifecycleErr);
    if done && !captured.Nil? then
      if !stripped.Nil? then Join([captured, stripped]) else captured
    else stripped
  }

  // ---------- invariant ----------

  /** The closure and its Start goroutine agree. */
  predicate FnInStep(fn: Fn, st: StartStatus) {
    match st
    case Unlaunched => fn.NotCalled?
    case Launched => fn.NotCalled?
    case InStart => !fn.NotCalled?
    case _ => (fn.Signalled? && st.err.Nil?) || (fn.FnPanicked? && st.err.Panic?)
  }

  ghost predicate OnceInv(c: Config, o: Once)
    requires OnceConfig(c)
  {
    && Reachable(c, o.eng)
    && |o.eng.starts| == c.N()
    && FnInStep(o.fn, o.eng.starts[FnItem(c)])
    && (o.fnDone <==> o.fn.Published? || o.fn.Signalled?)
    && (if o.fnDone then o.fnErr == o.fn.err else o.fnErr == Nil)
    && (!o.eng.ctx.parent.Nil? ==> o.outside || o.fn.Signalled?)
    && (o.fn.Signalled? ==> !o.eng.ctx.parent.Nil?)
    && (o.captured.Some? ==> o.eng.run.pc.Done?)
    && (o.captured.Some? && o.captured.value.1 ==> o.fnDone && o.captured.value.0 == o.fnErr)
    && (o.captured.Some? && o.eng.run.drainVerdict.Joined? ==> o.captured.value == (o.fnErr, o.fnDone))
  }

  lemma FnStays(c: Config, o: Once, e: Action)
    requires OnceConfig(c) && OnceInv(c, o) && OnceEnabled(c, o, Eng(e))
    ensures var o' := OnceApply(c, o, Eng(e));
      |o'.eng.starts| == c.N() && FnInStep(o'.fn, o'.eng.starts[FnItem(c)])
    ensures o.fnDone ==> OnceApply(c, o, Eng(e)).fn == o.fn
  {
    Invariance(c, o.eng);
    OneStart(c, o.eng, e, FnItem(c));
  }

  lemma EngFacts(c: Config, s: State, e: Action)
    requires Enabled(c, s, e)
    ensures s.run.pc.Done? ==> Apply(c, s, e).run == s.run
    ensures !Apply(c, s, e).ctx.parent.Nil? ==> !s.ctx.parent.Nil? || e.CancelParent?
    ensures !s.ctx.parent.Nil? ==> !Apply(c, s, e).ctx.parent.Nil?
    ensures Apply(c, s, e).ctx.parent == if e.CancelParent? then e.err else s.ctx.parent
  {
  }

  lemma EngKeeps(c: Config, o: Once, e: Action)
    requires OnceConfig(c) && OnceInv(c, o) && OnceEnabled(c, o, Eng(e))
    ensures OnceInv(c, OnceApply(c, o, Eng(e)))
  {
    StepReachable(c, o.eng, e);
    FnStays(c, o, e);
    EngFacts(c, o.eng, e);
  }

  lemma OnceStepKeeps(c: Config, o: Once, a: OnceAction)
    requires OnceConfig(c) && OnceInv(c, o) && OnceEnabled(c, o, a)
    ensures OnceInv(c, OnceApply(c, o, a))
  {
    Invariance(c, o.eng);
    match a
    case Eng(e) => EngKeeps(c, o, e);
    case Signal =>
      if o.eng.ctx.parent.Nil? { StepReachable(c, o.eng, CancelParent(CANCELED)); }
    case _ =>
  }

  lemma {:induction false} OnceExecKeeps(c: Config, o: Once, acts: seq<OnceAction>)
    requires OnceConfig(c) && OnceInv(c, o)
    ensures OnceExec(c, o, acts).Some? ==> OnceInv(c, OnceExec(c, o, acts).value)
  {
    if acts != [] {
      var last := |acts| - 1;
      OnceExecKeeps(c, o, acts[..last]);
      if OnceExec(c, o, acts).Some? { OnceStepKeeps(c, OnceExec(c, o, acts[..last]).value, acts[last]); }
    }
  }

  lemma OnceInvariance(c: Config, o: Once)
    requires OnceConfig(c) && OnceReachable(c, o)
    ensures OnceInv(c, o)
  {
    var acts :| OnceExec(c, OnceInitial(c), acts) == Some(o);
    InitialReachable(c);
    OnceExecKeeps(c, OnceInitial(c), acts);
  }

  predicate HasReturned(fn: Fn) {
    fn.FnBack? || fn.Published? || fn.Signalled?
  }

  predicate HasEnded(fn: Fn) {
    HasReturned(fn) || fn.FnPanicked?
  }

  // ---------- what fn and the caller said ----------

  /** The state still says what fn came back with. */
  predicate FnRemembers(o: Once, a: OnceAction) {
    match a
    case FnReturn(Returned(e)) => HasReturned(o.fn) && o.fn.err == e
    case FnReturn(Panicked) => o.fn.FnPanicked?
    case _ => true
  }

  lemma FnStepRemembers(c: Config, o: Once, step: OnceAction, a: OnceAction)
    requires OnceConfig(c) && OnceInv(c, o) && OnceEnabled(c, o, step) && (FnRemembers(o, a) || step == a)
    ensures FnRemembers(OnceApply(c, o, step), a)
  {
    assert HasEnded(o.fn) ==> step != Eng(Start(FnItem(c), Enter));
  }

  lemma LastStep(c: Config, acts: seq<OnceAction>) returns (mid: Once)
    requires OnceConfig(c) && acts != [] && OnceExec(c, OnceInitial(c), acts).Some?
    ensures OnceExec(c, OnceInitial(c), acts[..|acts| - 1]) == Some(mid) && OnceInv(c, mid)
    ensures OnceEnabled(c, mid, acts[|acts| - 1])
    ensures OnceExec(c, OnceInitial(c), acts) == Some(OnceApply(c, mid, acts[|acts| - 1]))
  {
    InitialReachable(c);
    OnceExecKeeps(c, OnceInitial(c), acts[..|acts| - 1]);
    mid := OnceExec(c, OnceInitial(c), acts[..|acts| - 1]).value;
  }

  /** What fn came back with is what the state says to the end of the run. */
  lemma {:induction false} FnRemembered(c: Config, acts: seq<OnceAction>, a: OnceAction)
    requires OnceConfig(c) && OnceExec(c, OnceInitial(c), acts).Some? && a in acts
    ensures FnRemembers(OnceExec(c, OnceInitial(c), acts).value, a)
  {
    var mid := LastStep(c, acts);
    var front, last := acts[..|acts| - 1], acts[|acts| - 1];
    assert a in front || last == a by { assert acts == front + [last]; }
    if a in front { FnRemembered(c, front, a); }
    FnStepRemembers(c, mid, last, a);
  }

  /** And it is not made up; nor is the error of the run context, which is Canceled unless the caller gave another. */
  ghost predicate Founded(o: Once, acts: seq<OnceAction>) {
    && (HasReturned(o.fn) ==> FnReturn(Returned(o.fn.err)) in acts)
    && (o.fn.FnPanicked? ==> FnReturn(Panicked) in acts)
    && (!o.eng.ctx.parent.Nil? ==>
          Eng(CancelParent(o.eng.ctx.parent)) in acts || (o.eng.ctx.parent == CANCELED && o.fn.Signalled?))
    && (o.outside <==> exists err :: Eng(CancelParent(err)) in acts)
  }

  lemma FoundedStep(c: Config, o: Once, a: OnceAction, acts: seq<OnceAction>)
    requires OnceConfig(c) && OnceInv(c, o) && OnceEnabled(c, o, a) && Founded(o, acts)
    ensures Founded(OnceApply(c, o, a), acts + [a])
  {
    var o' := OnceApply(c, o, a);
    assert forall x: OnceAction :: x in acts + [a] <==> x in acts || x == a;
    if a.Eng? {
      EngFacts(c, o.eng, a.a);
      FnStays(c, o, a.a);
      if a.a.CancelParent? { assert Eng(CancelParent(a.a.err)) in acts + [a]; }
    }
    if o.outside {
      var err :| Eng(CancelParent(err)) in acts;
      assert Eng(CancelParent(err)) in acts + [a];
    }
  }

  lemma {:induction false} FnNotInvented(c: Config, acts: seq<OnceAction>)
    requires OnceConfig(c) && OnceExec(c, OnceInitial(c), acts).Some?
    ensures Founded(OnceExec(c, OnceInitial(c), acts).value, acts)
  {
    if acts != [] {
      var mid := LastStep(c, acts);
      var front, last := acts[..|acts| - 1], acts[|acts| - 1];
      FnNotInvented(c, front);
      FoundedStep(c, mid, last, front);
      assert front + [last] == acts;
    }
  }

  // ---------- when fn ended ----------

  /** fn's end and the cancellation it leads to are simultaneous, whichever of the two comes first. */
  ghost predicate EndClock(o: Once) {
    && (HasEnded(o.fn) ==> o.endedAt <= o.eng.now)
    && (o.fn.FnBack? || o.fn.Published? ==> o.eng.now == o.endedAt)
    && (HasEnded(o.fn) && !o.eng.ctx.cancelled ==> o.eng.now == o.endedAt)
    && (HasEnded(o.fn) && o.eng.ctx.cancelled ==> o.eng.ctx.cancelledAt <= o.endedAt)
  }

  /** The deadline of the drain is at least one grace after the cancellation; Run gives up exactly at it, and RunOnce
      reads fnErr when Run returns. */
  ghost predicate DrainClock(c: Config, o: Once) {
    var r := o.eng.run;
    && (PastStops(r) ==> o.eng.ctx.cancelledAt + c.Grace() <= r.timer)
    && (r.drainVerdict.Expired? ==> if r.pc.Done? then r.returnedAt == r.timer else o.eng.now == r.timer)
    && (r.pc.Done? ==> r.returnedAt <= o.eng.now)
    && (r.pc.Done? && o.captured.None? ==> o.eng.now == r.returnedAt)
  }

  /** What RunOnce read if the drain timed out, by the time at which fn returned. */
  predicate ReadClock(o: Once) {
    o.captured.Some? && o.eng.run.drainVerdict.Expired? ==>
      && (HasReturned(o.fn) && o.endedAt < o.eng.run.timer ==> o.captured == Some((o.fn.err, true)))
      && (!HasReturned(o.fn) || o.eng.run.timer < o.endedAt ==> o.captured == Some((Nil, false)))
  }

  ghost predicate Clock(c: Config, o: Once) {
    EndClock(o) && DrainClock(c, o) && ReadClock(o)
  }

  /** Time passes only when everything that fn's end sets off, the cancellation included, has been done. */
  lemma TickFacts(c: Config, o: Once)
    requires OnceConfig(c) && OnceInv(c, o) && OnceEnabled(c, o, Eng(Tick))
    ensures HasEnded(o.fn) ==> o.eng.ctx.cancelled && !o.fn.FnBack? && !o.fn.Published?
    ensures o.eng.run.drainVerdict.Expired? ==> o.eng.run.pc.Done?
    ensures o.eng.run.pc.Done? ==> o.captured.Some?
  {
    var s := o.eng;
    assert Bounds(c, s.run) && Shape(c, s) && Launches(c, s.run, s.starts, s.running) by { Invariance(c, s); }
    if !AtRest(s) { NextIsReady(c, s); }
    if s.run.pc.Waiting? {
      FailFast(c, s);
      assert Healthy(s.starts[FnItem(c)]);
    }
  }

  lemma TickClock(c: Config, o: Once)
    requires OnceConfig(c) && OnceInv(c, o) && Clock(c, o) && OnceEnabled(c, o, Eng(Tick))
    ensures Clock(c, OnceApply(c, o, Eng(Tick)))
  {
    TickFacts(c, o);
  }

  /** A step of Run does not cancel: where one could, internalCtx is cancelled already. */
  lemma RunCtx(c: Config, s: State, step: RunStep)
    requires RunReady(c, s, step) && (s.run.pc.HaveParentErr? ==> s.ctx.cancelled)
    ensures var s' := RunApply(c, s, step);
      s'.now == s.now && s'.ctx.cancelled == s.ctx.cancelled && s'.ctx.cancelledAt == s.ctx.cancelledAt
  {
  }

  lemma RunDrainClock(c: Config, o: Once, step: RunStep)
    requires OnceConfig(c) && DrainClock(c, o) && RunReady(c, o.eng, step)
    requires Bounds(c, o.eng.run) && o.captured.None?
    requires o.eng.run.pc.Stopping? ==> o.eng.ctx.cancelledAt <= o.eng.now
    requires o.eng.run.pc.DrainWait? ==> o.eng.now <= o.eng.run.timer
    requires RunApply(c, o.eng, step).now == o.eng.now
    requires RunApply(c, o.eng, step).ctx.cancelledAt == o.eng.ctx.cancelledAt
    ensures DrainClock(c, o.(eng := RunApply(c, o.eng, step)))
  {
  }

  lemma RunEndClock(c: Config, o: Once, step: RunStep)
    requires EndClock(o) && RunReady(c, o.eng, step) && o.captured.None?
    requires var s' := RunApply(c, o.eng, step);
      s'.now == o.eng.now && s'.ctx.cancelled == o.eng.ctx.cancelled && s'.ctx.cancelledAt == o.eng.ctx.cancelledAt
    ensures EndClock(o.(eng := RunApply(c, o.eng, step))) && ReadClock(o.(eng := RunApply(c, o.eng, step)))
  {
  }

  lemma RunClock(c: Config, o: Once, step: RunStep)
    requires OnceConfig(c) && Reachable(c, o.eng) && Clock(c, o) && RunReady(c, o.eng, step)
    requires o.captured.Some? ==> o.eng.run.pc.Done?
    ensures Clock(c, o.(eng := RunApply(c, o.eng, step)))
  {
    var s := o.eng;
    assert && Bounds(c, s.run) && (s.run.pc.DrainWait? ==> s.now <= s.run.timer)
           && (s.run.pc.HaveParentErr? || s.run.pc.Stopping? ==> s.ctx.cancelled)
           && (s.ctx.cancelled ==> s.ctx.cancelledAt <= s.now) by {
      Invariance(c, s);
    }
    RunCtx(c, s, step);
    RunDrainClock(c, o, step);
    RunEndClock(c, o, step);
  }

  lemma OtherCtx(c: Config, s: State, e: Action)
    requires Ready(c, s, e) && !e.Run?
    ensures var s' := Apply(c, s, e);
      && s'.run == s.run && s'.now == s.now
      && (s.ctx.cancelled ==> s'.ctx.cancelled && s'.ctx.cancelledAt == s.ctx.cancelledAt)
      && (!s.ctx.cancelled && s'.ctx.cancelled ==> s'.ctx.cancelledAt == s.now)
  {
  }

  lemma OtherClock(c: Config, o: Once, e: Action)
    requires OnceConfig(c) && OnceInv(c, o) && Clock(c, o) && OnceEnabled(c, o, Eng(e)) && !e.Run? && !e.Tick?
    ensures Clock(c, OnceApply(c, o, Eng(e)))
  {
    assert PastStops(o.eng.run) ==> o.eng.ctx.cancelled by { Invariance(c, o.eng); }
    assert e == Start(FnItem(c), Enter) ==> o.fn.NotCalled?;
    OtherCtx(c, o.eng, e);
  }

  lemma ClosureClock(c: Config, o: Once, a: OnceAction)
    requires OnceConfig(c) && OnceInv(c, o) && Clock(c, o) && OnceEnabled(c, o, a) && !a.Eng?
    ensures Clock(c, OnceApply(c, o, a))
  {
    assert o.eng.ctx.cancelled ==> o.eng.ctx.cancelledAt <= o.eng.now by { Invariance(c, o.eng); }
  }

  lemma StepClock(c: Config, o: Once, a: OnceAction)
    requires OnceConfig(c) && OnceInv(c, o) && Clock(c, o) && OnceEnabled(c, o, a)
    ensures Clock(c, OnceApply(c, o, a))
  {
    match a
    case Eng(Tick) => TickClock(c, o);
    case Eng(Run(step)) => RunClock(c, o, step);
    case Eng(e) => OtherClock(c, o, e);
    case _ => ClosureClock(c, o, a);
  }

  lemma {:induction false} KeepsClock(c: Config, o: Once, acts: seq<OnceAction>)
    requires OnceConfig(c) && OnceInv(c, o) && Clock(c, o) && OnceExec(c, o, acts).Some?
    ensures var o' := OnceExec(c, o, acts).value; OnceInv(c, o') && Clock(c, o')
  {
    if acts != [] {
      var last := |acts| - 1;
      var mid := OnceExec(c, o, acts[..last]).value;
      KeepsClock(c, o, acts[..last]);
      OnceStepKeeps(c, mid, acts[last]);
      StepClock(c, mid, acts[last]);
    }
  }

  lemma OnTime(c: Config, o: Once)
    requires OnceConfig(c) && OnceReachable(c, o)
    ensures OnceInv(c, o) && Clock(c, o)
  {
    var acts :| OnceExec(c, OnceInitial(c), acts) == Some(o);
    InitialReachable(c);
    KeepsClock(c, OnceInitial(c), acts);
  }

  // ---------- what RunOnce promises ----------

  lemma PublishedStays(c: Config, o: Once, a: OnceAction)
    requires OnceConfig(c) && OnceInv(c, o) && OnceEnabled(c, o, a)
    requires o.fnDone && (o.captured.None? || o.captured == Some((o.fnErr, true)))
    ensures var o' := OnceApply(c, o, a);
      o'.fnDone && o'.fnErr == o.fnErr && (o'.captured.None? || o'.captured == Some((o.fnErr, true)))
  {
    Invariance(c, o.eng);
  }

  /** What fn published before RunOnce looked is what RunOnce sees, however the run goes on. */
  lemma {:induction false} PublishedIsCaptured(c: Config, o: Once, acts: seq<OnceAction>)
    requires OnceConfig(c) && OnceInv(c, o) && o.fnDone && o.captured.None?
    requires OnceExec(c, o, acts).Some?
    ensures var o' := OnceExec(c, o, acts).value;
      o'.fnDone && o'.fnErr == o.fnErr && (o'.captured.None? || o'.captured == Some((o.fnErr, true)))
  {
    if acts != [] {
      var last := |acts| - 1;
      PublishedIsCaptured(c, o, acts[..last]);
      OnceExecKeeps(c, o, acts[..last]);
      PublishedStays(c, OnceExec(c, o, acts[..last]).value, acts[last]);
    }
  }

  /** If fn returned an error, even Canceled, and published it before RunOnce looked, the result Is that error, however
      the run goes on. */
  lemma FnErrorSurvives(c: Config, before: seq<OnceAction>, acts: seq<OnceAction>, e: Error)
    requires OnceConfig(c) && OnceExec(c, OnceInitial(c), before).Some? && FnReturn(Returned(e)) in before && !e.Nil?
    requires OnceExec(c, OnceExec(c, OnceInitial(c), before).value, acts).Some?
    ensures var o := OnceExec(c, OnceInitial(c), before).value; var o' := OnceExec(c, o, acts).value;
      o.fnDone && o.captured.None? && o'.captured.Some? ==>
        Is(OnceResult(o'.eng.run.result, o'.captured.value.0, o'.captured.value.1), e)
  {
    var o := OnceExec(c, OnceInitial(c), before).value;
    assert OnceReachable(c, o);
    OnceInvariance(c, o);
    FnRemembered(c, before, FnReturn(Returned(e)));
    var o' := OnceExec(c, o, acts).value;
    if o.fnDone && o.captured.None? && o'.captured.Some? {
      PublishedIsCaptured(c, o, acts);
      SeenErrorIsKept(o'.eng.run.result, e);
    }
  }

  lemma SeenErrorIsKept(lifecycleErr: Error, fnErr: Error)
    requires !fnErr.Nil?
    ensures Is(OnceResult(lifecycleErr, fnErr, true), fnErr)
    ensures var stripped := WithoutCanceled(lifecycleErr);
      OnceResult(lifecycleErr, fnErr, true) == if stripped == Nil then fnErr else Multi([fnErr, stripped])
  {
    var stripped := WithoutCanceled(lifecycleErr);
    if !stripped.Nil? {
      NonNilOfClean([fnErr, stripped]);
      assert Reaches([fnErr, stripped][0], fnErr);
    }
  }

  /** Unless the drain timed out, an fn that returned has published before RunOnce looks. */
  lemma FnIsSeen(c: Config, o: Once)
    requires OnceConfig(c) && OnceReachable(c, o)
    requires o.captured.Some? && o.eng.run.exit.Completed? && !o.eng.run.drainVerdict.Expired?
    ensures (o.fn.Signalled? && o.captured == Some((o.fn.err, true)))
         || (o.fn.FnPanicked? && !o.captured.value.1)
  {
    OnceInvariance(c, o);
    Invariance(c, o.eng);
  }

  /** Who sees what, by the time at which fn came back. An fn that returned is always seen unless the drain timed
      out; then it is seen if it came back before the drain's deadline, and not if it came back after it. Only at
      the very tick of the deadline does it depend on the schedule. */
  lemma SeenWhen(c: Config, o: Once)
    requires OnceConfig(c) && OnceReachable(c, o) && o.captured.Some? && HasReturned(o.fn)
    ensures o.eng.run.exit.Completed?
    ensures !o.eng.run.drainVerdict.Expired? || o.endedAt < o.eng.run.timer ==> o.captured == Some((o.fn.err, true))
    ensures o.eng.run.drainVerdict.Expired? && o.eng.run.timer < o.endedAt ==> o.captured == Some((Nil, false))
    ensures o.eng.ctx.cancelled && o.eng.ctx.cancelledAt + c.Grace() <= o.eng.run.timer
  {
    OnTime(c, o);
    assert o.eng.run.exit.Completed? && o.eng.ctx.cancelled by { Invariance(c, o.eng); }
    if !o.eng.run.drainVerdict.Expired? { FnIsSeen(c, o); }
  }

  /** The error that fn returned in the run, even Canceled, is in the result of RunOnce if the drain was in time, or if
      fn came back before the drain's deadline, and so whenever it came back within stopTimeout of the cancellation. */
  lemma FnErrorReported(c: Config, acts: seq<OnceAction>, e: Error)
    requires OnceConfig(c) && OnceExec(c, OnceInitial(c), acts).Some?
    requires FnReturn(Returned(e)) in acts && !e.Nil? && OnceExec(c, OnceInitial(c), acts).value.captured.Some?
    requires var o := OnceExec(c, OnceInitial(c), acts).value;
      || !o.eng.run.drainVerdict.Expired?
      || o.endedAt < o.eng.run.timer
      || o.endedAt < o.eng.ctx.cancelledAt + c.Grace()
    ensures var o := OnceExec(c, OnceInitial(c), acts).value;
      Is(OnceResult(o.eng.run.result, o.captured.value.0, o.captured.value.1), e)
  {
    var o := OnceExec(c, OnceInitial(c), acts).value;
    assert OnceReachable(c, o);
    FnRemembered(c, acts, FnReturn(Returned(e)));
    SeenWhen(c, o);
    SeenErrorIsKept(o.eng.run.result, e);
  }

  /** And one that came back after the deadline is not: RunOnce returns what Run would have. */
  lemma LateFnIsIgnored(c: Config, o: Once)
    requires OnceConfig(c) && OnceReachable(c, o) && o.captured.Some? && HasReturned(o.fn)
    requires o.eng.run.drainVerdict.Expired? && o.eng.run.timer < o.endedAt
    ensures OnceResult(o.eng.run.result, o.captured.value.0, o.captured.value.1) == WithoutCanceled(o.eng.run.result)
  {
    SeenWhen(c, o);
  }

  /** RunOnce returns nil exactly when App.Run would have and no error of fn was seen. */
  lemma OnceVerdict(c: Config, o: Once)
    requires OnceConfig(c) && OnceReachable(c, o) && o.captured.Some?
    ensures OnceResult(o.eng.run.result, o.captured.value.0, o.captured.value.1) == Nil <==>
      CleanEnd(o.eng) && !(o.captured.value.1 && !o.captured.value.0.Nil?)
  {
    OnceInvariance(c, o);
    RunVerdict(c, o.eng);
    var e, stripped := o.captured.value.0, WithoutCanceled(o.eng.run.result);
    if !e.Nil? && !stripped.Nil? { NonNilOfClean([e, stripped]); }
  }

  /** Neither fn's error nor the errors of the shutdown hide the other: a sentinel is in the result exactly
      when it is in what fn returned or in what is left of the engine's error. */
  lemma OnceKeepsBoth(lifecycleErr: Error, captured: Error, done: bool, t: Error)
    requires t.Leaf?
    ensures Is(OnceResult(lifecycleErr, captured, done), t) <==>
      (done && Is(captured, t)) || Is(WithoutCanceled(lifecycleErr), t)
  {
    var pair := [captured, WithoutCanceled(lifecycleErr)];
    JoinIs(pair, t);
    assert Is(pair[0], t) || Is(pair[1], t) <==> exists i | 0 <= i < |pair| :: Is(pair[i], t);
  }

  lemma NilStates(c: Config, o: Once)
    requires OnceConfig(c) && OnceReachable(c, o) && o.captured.Some?
    requires OnceResult(o.eng.run.result, o.captured.value.0, o.captured.value.1) == Nil
    ensures || (o.fn.Signalled? && o.fn.err.Nil? && o.captured == Some((Nil, true)))
            || (o.eng.run.exit.InitAborted? && Is(o.eng.run.exit.err, CANCELED))
            || (o.fn.FnPanicked? && Is(o.eng.ctx.trigger, CANCELED) && o.eng.ctx.trigger != Wrap(Panic))
  {
    OnceInvariance(c, o);
    Invariance(c, o.eng);
    RunVerdict(c, o.eng);
    var e, d := o.captured.value.0, o.captured.value.1;
    var stripped := WithoutCanceled(o.eng.run.result);
    if d && !e.Nil? {
      NonNilOfClean([e, stripped]);
    }
    if o.eng.run.exit.Completed? {
      FnIsSeen(c, o);
      assert !Reaches(Panic, CANCELED);
    }
  }

  /** What a nil from RunOnce means: fn returned nil in the run; or Init gave up with a cancellation; or fn panicked in
      the run when another trigger, a cancellation, had already won. */
  lemma NilMeans(c: Config, acts: seq<OnceAction>)
    requires OnceConfig(c) && OnceExec(c, OnceInitial(c), acts).Some?
    requires var o := OnceExec(c, OnceInitial(c), acts).value;
      o.captured.Some? && OnceResult(o.eng.run.result, o.captured.value.0, o.captured.value.1) == Nil
    ensures var o := OnceExec(c, OnceInitial(c), acts).value;
      || (FnReturn(Returned(Nil)) in acts && o.captured == Some((Nil, true)))
      || (o.eng.run.exit.InitAborted? && Is(o.eng.run.exit.err, CANCELED))
      || (FnReturn(Panicked) in acts && Is(o.eng.ctx.trigger, CANCELED) && o.eng.ctx.trigger != Wrap(Panic))
  {
    var o := OnceExec(c, OnceInitial(c), acts).value;
    assert OnceReachable(c, o);
    NilStates(c, o);
    FnNotInvented(c, acts);
  }

  /** "A clean shutdown (fn returns nil, all Stops succeed) yields a nil return": if fn returned nil, nobody but RunOnce
      itself cancelled with anything but Canceled, no Start result that was delivered is a real error, every Stop was
      clean and the drain in time, the result is nil. */
  lemma CleanOnceIsNil(c: Config, acts: seq<OnceAction>)
    requires OnceConfig(c) && OnceExec(c, OnceInitial(c), acts).Some? && FnReturn(Returned(Nil)) in acts
    requires forall err | Eng(CancelParent(err)) in acts :: Is(err, CANCELED)
    requires var o := OnceExec(c, OnceInitial(c), acts).value;
      && o.captured.Some? && StartsHarmless(o.eng.starts) && !o.eng.run.drainVerdict.Expired?
      && forall k | 0 <= k < |o.eng.run.records| :: Clean(o.eng.run.records[k].verdict)
    ensures var o := OnceExec(c, OnceInitial(c), acts).value;
      OnceResult(o.eng.run.result, o.captured.value.0, o.captured.value.1) == Nil
  {
    var o := OnceExec(c, OnceInitial(c), acts).value;
    assert OnceReachable(c, o);
    FnRemembered(c, acts, FnReturn(Returned(Nil)));
    FnNotInvented(c, acts);
    SeenWhen(c, o);
    OnceInvariance(c, o);
    CleanShutdownIsNil(c, o.eng);
  }

  // ---------- fn's item ----------

  /** The Stop of fn's item, while the engine is in its turn, which is the first: it takes no time. */
  ghost predicate FnStop(c: Config, o: Once)
    requires OnceConfig(c)
  {
    var r := o.eng.run;
    && (FnItem(c) < |o.eng.stops| && o.eng.stops[FnItem(c)].Stopped? ==> o.eng.stops[FnItem(c)].err == Nil)
    && (r.pc == StopWait(0) ==> r.began == o.eng.now)
    && (r.records != [] ==> !r.records[0].verdict.StopFailed?)
    && (r.records != [] && r.records[0].verdict.StopExpired? ==> c.stopTimeout <= 0)
  }

  lemma FnStopTurn(c: Config, o: Once, step: RunStep)
    requires OnceConfig(c) && FnStop(c, o) && RunReady(c, o.eng, step) && (step.StopFinished? || step.StopDeadline?)
    requires |o.eng.run.records| == o.eng.run.pc.k
    requires |o.eng.stops| == c.N() && (o.eng.run.pc.StopWait? ==> o.eng.run.timer == o.eng.run.began + c.Grace())
    ensures FnStop(c, o.(eng := RunApply(c, o.eng, step)))
  {
  }

  lemma FnStopCall(c: Config, o: Once)
    requires OnceConfig(c) && FnStop(c, o) && RunReady(c, o.eng, CallStop) && |o.eng.stops| == c.N()
    requires o.eng.run.pc.k == 0 ==> o.eng.stops[FnItem(c)].Uncalled?
    ensures FnStop(c, o.(eng := RunApply(c, o.eng, CallStop)))
  {
  }

  lemma FnStopRun(c: Config, o: Once, step: RunStep)
    requires OnceConfig(c) && FnStop(c, o) && RunReady(c, o.eng, step) && Bounds(c, o.eng.run) && !step.SkipStop?
    requires |o.eng.stops| == c.N() && (o.eng.run.pc.StopWait? ==> o.eng.run.timer == o.eng.run.began + c.Grace())
    requires step.CallStop? && o.eng.run.pc.k == 0 ==> o.eng.stops[FnItem(c)].Uncalled?
    ensures FnStop(c, o.(eng := RunApply(c, o.eng, step)))
  {
    if step.StopFinished? || step.StopDeadline? {
      FnStopTurn(c, o, step);
    } else if step.CallStop? {
      FnStopCall(c, o);
    } else {
      var r, r' := o.eng.run, RunLocal(c, o.eng, step);
      assert r'.records == r.records && RunApply(c, o.eng, step).stops == o.eng.stops && !r'.pc.StopWait?;
    }
  }

  lemma FnStopTick(c: Config, o: Once)
    requires OnceConfig(c) && OnceInv(c, o) && FnStop(c, o) && OnceEnabled(c, o, Eng(Tick))
    ensures FnStop(c, o.(eng := o.eng.(now := o.eng.now + 1)))
  {
    assert && Bounds(c, o.eng.run) && |o.eng.stops| == c.N() && |o.eng.run.records| <= c.N()
           && StopCalls(c, o.eng.run, o.eng.stops) by {
      Invariance(c, o.eng);
    }
    assert Urgent(Run(StopFinished)) && !Ready(c, o.eng, Run(StopFinished));
  }

  lemma FnStopOther(c: Config, o: Once, e: Action)
    requires OnceConfig(c) && FnStop(c, o) && OnceEnabled(c, o, Eng(e)) && !e.Run? && !e.Tick?
    ensures FnStop(c, o.(eng := Apply(c, o.eng, e)))
  {
    OtherCtx(c, o.eng, e);
  }

  lemma FnStopEng(c: Config, o: Once, e: Action)
    requires OnceConfig(c) && OnceInv(c, o) && FnStop(c, o) && OnceEnabled(c, o, Eng(e))
    ensures FnStop(c, o.(eng := Apply(c, o.eng, e)))
  {
    if e.Run? {
      assert && Bounds(c, o.eng.run) && !e.step.SkipStop? && |o.eng.stops| == c.N()
             && (o.eng.run.pc.StopWait? ==> o.eng.run.timer == o.eng.run.began + c.Grace())
             && (e.step.CallStop? && o.eng.run.pc.k == 0 ==> o.eng.stops[FnItem(c)].Uncalled?) by {
        Invariance(c, o.eng);
        NoSkip(c, o.eng);
      }
      FnStopRun(c, o, e.step);
    } else if e.Tick? {
      FnStopTick(c, o);
    } else {
      FnStopOther(c, o, e);
    }
  }

  lemma FnStopStep(c: Config, o: Once, a: OnceAction)
    requires OnceConfig(c) && OnceInv(c, o) && FnStop(c, o) && OnceEnabled(c, o, a)
    ensures FnStop(c, OnceApply(c, o, a))
  {
    if a.Eng? {
      FnStopEng(c, o, a.a);
      assert OnceApply(c, o, a).eng == Apply(c, o.eng, a.a);
    }
  }

  lemma {:induction false} FnStopOf(c: Config, acts: seq<OnceAction>)
    requires OnceConfig(c) && OnceExec(c, OnceInitial(c), acts).Some?
    ensures FnStop(c, OnceExec(c, OnceInitial(c), acts).value)
  {
    if acts != [] {
      var mid := LastStep(c, acts);
      FnStopOf(c, acts[..|acts| - 1]);
      FnStopStep(c, mid, acts[|acts| - 1]);
    }
  }

  /** fn's item adds nothing to the Stop errors: its turn, the first, never fails, and with a positive timeout never
      expires. */
  lemma FnItemStopsClean(c: Config, o: Once)
    requires OnceConfig(c) && OnceReachable(c, o) && o.eng.run.records != []
    ensures !o.eng.run.records[0].verdict.StopFailed?
    ensures c.stopTimeout > 0 ==> o.eng.run.records[0].verdict == StopOk
  {
    var acts :| OnceExec(c, OnceInitial(c), acts) == Some(o);
    FnStopOf(c, acts);
  }

  /** fn may return anything or panic, and the registered components are as free as they are without fn. */
  lemma FnIsFree(c: Config, o: Once, call: Call, i: nat)
    requires OnceConfig(c)
    ensures o.fn.InFn? ==> OnceEnabled(c, o, FnReturn(call))
    ensures i < |o.eng.starts| && o.eng.starts[i].InStart? && i != FnItem(c) ==>
      OnceEnabled(c, o, Eng(Start(i, Leave(call))))
    ensures i < |o.eng.stops| && o.eng.stops[i].InStop? && i != FnItem(c) ==> OnceEnabled(c, o, Eng(StopReturn(i, call)))
  {
  }

  /** No Stop begins before fn has returned, unless the caller or a signal cancelled, or some Start, a
      panicking fn included, failed; and fn's own item is the first to be stopped. */
  lemma StopsAfterFn(c: Config, o: Once)
    requires OnceConfig(c) && OnceReachable(c, o)
    ensures |o.eng.stops| == c.N()
    ensures forall i | 0 <= i < |o.eng.stops| && !o.eng.stops[i].Uncalled? ::
      && (o.fn.Signalled? || o.outside
          || (o.eng.ctx.origin.FromStart? && FirstFailure(o.eng.chan.sends, o.eng.ctx.origin.k)))
      && !o.eng.stops[FnItem(c)].Uncalled?
  {
    OnceInvariance(c, o);
    assert |o.eng.stops| == c.N() by { Invariance(c, o.eng); }
    forall i | 0 <= i < |o.eng.stops| && !o.eng.stops[i].Uncalled?
      ensures o.fn.Signalled? || o.outside
           || (o.eng.ctx.origin.FromStart? && FirstFailure(o.eng.chan.sends, o.eng.ctx.origin.k))
      ensures !o.eng.stops[FnItem(c)].Uncalled?
    {
      StopDiscipline(c, o.eng, i);
      assert Trigger(o.eng.run, o.eng.chan, o.eng.ctx) && StopCalls(c, o.eng.run, o.eng.stops) by {
        Invariance(c, o.eng);
      }
    }
  }

  // ---------- fn's end is the end of the run ----------

  lemma EndBound(c: Config, o: Once)
    requires OnceConfig(c) && OnceInv(c, o) && Clock(c, o) && HasEnded(o.fn)
    ensures o.captured.None? ==> o.eng.now <= o.endedAt + (c.N() + 1) * c.Grace()
    ensures o.eng.run.pc.Done? ==> o.eng.run.returnedAt <= o.endedAt + (c.N() + 1) * c.Grace()
  {
    assert o.eng.run.pc.Done? ==> o.eng.ctx.cancelled by { Invariance(c, o.eng); }
    if o.eng.ctx.cancelled {
      BoundedShutdown(c, o.eng);
    } else {
      LimitIsLinear(o.endedAt, c.N() + 1, c.Grace());
      LimitGrows(o.endedAt, 0, c.N() + 1, c.Grace());
    }
  }

  /** However fn ends, the engine returns, and RunOnce reads its result, within (n + 1) * stopTimeout of that moment. */
  lemma FnEndsTheRun(c: Config, o: Once)
    requires OnceConfig(c) && OnceReachable(c, o) && HasEnded(o.fn)
    ensures o.captured.None? ==> o.eng.now <= o.endedAt + (c.N() + 1) * c.Grace()
    ensures o.eng.run.pc.Done? ==> o.eng.run.returnedAt <= o.endedAt + (c.N() + 1) * c.Grace()
  {
    OnTime(c, o);
    EndBound(c, o);
  }

  function FnRank(fn: Fn): nat {
    match fn
    case NotCalled => 3
    case InFn => 3
    case FnBack(_) => 2
    case Published(_) => 1
    case _ => 0
  }

  function OnceFuel(c: Config, o: Once): int {
    Fuel(c, o.eng) + FnRank(o.fn) + (if o.captured.None? then 1 else 0)
  }

  lemma OnceStepBurns(c: Config, o: Once, a: OnceAction)
    requires OnceConfig(c) && OnceInv(c, o) && OnceEnabled(c, o, a) && a != Eng(Tick)
    ensures OnceFuel(c, OnceApply(c, o, a)) < OnceFuel(c, o)
  {
    match a
    case Eng(e) =>
      Invariance(c, o.eng);
      StepBurns(c, o.eng, e);
      FnStays(c, o, e);
    case Signal =>
      if o.eng.ctx.parent.Nil? {
        assert Inv(c, o.eng) by { Invariance(c, o.eng); }
        StepBurns(c, o.eng, CancelParent(CANCELED));
      }
    case _ =>
  }

  ghost function OnceTicks(acts: seq<OnceAction>): nat {
    if acts == [] then 0
    else OnceTicks(acts[..|acts| - 1]) + (if acts[|acts| - 1] == Eng(Tick) then 1 else 0)
  }

  lemma OnceTime(c: Config, o: Once, a: OnceAction)
    requires OnceConfig(c) && OnceEnabled(c, o, a)
    ensures OnceApply(c, o, a).eng.now == o.eng.now + (if a == Eng(Tick) then 1 else 0)
    ensures a == Eng(Tick) ==> OnceFuel(c, OnceApply(c, o, a)) == OnceFuel(c, o)
  {
    if a.Eng? { ClockStep(c, o.eng, a.a); }
  }

  lemma EndStays(c: Config, o: Once, a: OnceAction)
    requires OnceConfig(c) && OnceInv(c, o) && OnceEnabled(c, o, a) && HasEnded(o.fn)
    ensures HasEnded(OnceApply(c, o, a).fn) && OnceApply(c, o, a).endedAt == o.endedAt
  {
    assert a != Eng(Start(FnItem(c), Enter));
  }

  lemma {:induction false} OnceRunBurns(c: Config, o: Once, acts: seq<OnceAction>)
    requires OnceConfig(c) && OnceInv(c, o) && OnceExec(c, o, acts).Some?
    ensures var o' := OnceExec(c, o, acts).value;
      && |acts| - OnceTicks(acts) <= OnceFuel(c, o) - OnceFuel(c, o')
      && o'.eng.now == o.eng.now + OnceTicks(acts)
      && (HasEnded(o.fn) ==> HasEnded(o'.fn) && o'.endedAt == o.endedAt)
  {
    if acts != [] {
      var last := |acts| - 1;
      var mid := OnceExec(c, o, acts[..last]).value;
      OnceRunBurns(c, o, acts[..last]);
      OnceExecKeeps(c, o, acts[..last]);
      OnceTime(c, mid, acts[last]);
      if HasEnded(mid.fn) { EndStays(c, mid, acts[last]); }
      if acts[last] != Eng(Tick) { OnceStepBurns(c, mid, acts[last]); }
    }
  }

  lemma OnceFuelBound(c: Config, o: Once)
    requires OnceConfig(c) && OnceInv(c, o)
    ensures 0 <= OnceFuel(c, o) <= 14 * c.N() + 17
  {
    FuelBound(c, o.eng);
  }

  /** "When fn returns, the App shuts down": once fn has ended, every schedule that is long enough has seen RunOnce
      read its result, whatever the registered components do. */
  lemma OnceEnds(c: Config, o: Once, acts: seq<OnceAction>)
    requires OnceConfig(c) && OnceReachable(c, o) && HasEnded(o.fn) && OnceExec(c, o, acts).Some?
    requires |acts| > 14 * c.N() + 17 + (c.N() + 1) * c.Grace()
    ensures OnceExec(c, o, acts).value.captured.Some?
  {
    var o' := OnceExec(c, o, acts).value;
    OnTime(c, o);
    KeepsClock(c, o, acts);
    OnceRunBurns(c, o, acts);
    OnceFuelBound(c, o);
    OnceFuelBound(c, o');
    EndBound(c, o');
  }

  /** Steps that need neither a registered component nor the caller nor the clock. */
  predicate OwnStep(c: Config, a: OnceAction)
    requires OnceConfig(c)
  {
    match a
    case Eng(Start(i, Leave(_))) => i == FnItem(c)
    case Eng(StopReturn(i, _)) => i == FnItem(c)
    case Eng(e) => Urgent(e)
    case FnReturn(_) => false
    case _ => true
  }

  /** And until then RunOnce can go on by itself, or time can pass and brings a timer of the shutdown nearer. */
  lemma OnceGoesOn(c: Config, o: Once)
    requires OnceConfig(c) && OnceReachable(c, o) && HasEnded(o.fn) && o.captured.None?
    ensures || (exists a :: OwnStep(c, a) && OnceEnabled(c, o, a))
            || ((o.eng.run.pc.StopWait? || o.eng.run.pc.DrainWait?) && o.eng.now < o.eng.run.timer
                && OnceEnabled(c, o, Eng(Tick)))
  {
    OnceInvariance(c, o);
    if Owes(c, o) {
      OwedStep(c, o);
    } else {
      assert !o.eng.run.pc.InitCall? by { Invariance(c, o.eng); }
      NoDeadlock(c, o.eng);
      if e :| Urgent(e) && Enabled(c, o.eng, e) {
        assert OwnStep(c, Eng(e)) && OnceEnabled(c, o, Eng(e));
      } else {
        assert o.eng.run.pc.Waiting? ==> Healthy(o.eng.starts[FnItem(c)]);
      }
    }
  }

  lemma OwedStep(c: Config, o: Once)
    requires OnceConfig(c) && OnceInv(c, o) && Owes(c, o)
    ensures exists a :: OwnStep(c, a) && OnceEnabled(c, o, a)
  {
    var i := FnItem(c);
    var a :=
      if o.fn.FnBack? then Publish
      else if o.fn.Published? then Signal
      else if i < |o.eng.stops| && o.eng.stops[i].InStop? then Eng(StopReturn(i, Returned(Nil)))
      else if o.eng.run.pc.Done? && o.captured.None? then Capture
      else if o.fn.Signalled? then Eng(Start(i, Leave(Returned(Nil))))
      else Eng(Start(i, Leave(Panicked)));
    assert OwnStep(c, a) && OnceEnabled(c, o, a);
  }
}
