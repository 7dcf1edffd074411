/** The Start/Stop handshakes of components/grpcserver and components/httpserver, and of components
    that only wait for their context as components/pgxpool does, composed with the engine.

    What is taken from the server libraries: Serve may fail at any time; it returns at once when, or if
    already, the server has been told to stop. For http that is Shutdown's closing of the listener; for
    gRPC it is the end of GracefulStop, or Stop, which also ends GracefulStop at once. How long open
    requests keep Shutdown or GracefulStop waiting is up to the environment. */
module Servers {
  import opened GoErrors
  import opened Lifecycle
  import opened Invariant
  import opened Engine
  import opened Termination

  datatype Kind = CtxWaiter | Grpc | Http

  /** The body of Start. */
  datatype StartPc = NotStarted | Selecting | AwaitServe | StartBack(err: Error)

  /** The goroutine that calls Serve; `Served` is its value waiting in the one-place channel. */
  datatype Serve = NotServing | Serving | Served(err: Error) | Taken

  /** The body of Stop. `Asked` is http's wait inside Shutdown, `Choosing` and `AwaitDone` are gRPC's
      select and the receive after its deadline branch. */
  datatype StopPc = NotStopping | Begin | Asked | Choosing | AwaitDone | StopBack(err: Error)

  /** gRPC's GracefulStop; `Drained` is `done` closed. */
  datatype Graceful = NotAsked | Draining | Drained

  datatype Comp = Comp(kind: Kind, start: StartPc, serve: Serve, stop: StopPc, graceful: Graceful, hard: bool)

  datatype Sys = Sys(eng: State, comps: seq<Comp>)

  datatype CompStep =
    | TakeServed        // the receive from the channel of Serve, in the select or after it
    | SeeCtx            // the ctx.Done() branch of Start
    | ServeEnd(err: Error)
    | BeginStop
    | GracefulEnd
    | SeeDone
    | SeeStopCtx        // the ctx.Done() branch of Stop
    | ShutdownReturn(err: Error)

  datatype SysAction = Eng(a: Action) | Local(i: nat, step: CompStep)

  /** The server has been told to stop in the way that makes Serve return. */
  predicate ToldToStop(k: Comp) {
    match k.kind
    case CtxWaiter => false
    case Http => k.stop.Asked? || k.stop.StopBack?
    case Grpc => k.hard || k.graceful.Drained?
  }

  /** The ctx of Stop is done for item i: its deadline has passed, or Run has moved on and called stopCancel. */
  predicate StopCtxDone(n: nat, s: State, i: nat) {
    || i + |s.run.records| >= n
    || (s.run.pc.StopWait? && i + s.run.pc.k + 1 == n && s.run.timer <= s.now)
  }

  predicate CompReady(n: nat, s: State, i: nat, k: Comp, step: CompStep) {
    match step
    case TakeServed => (k.start.Selecting? || k.start.AwaitServe?) && k.serve.Served?
    case SeeCtx => k.start.Selecting? && s.ctx.cancelled
    case ServeEnd(_) => k.serve.Serving?
    case BeginStop => !k.kind.CtxWaiter? && k.stop.Begin?
    case GracefulEnd => k.graceful.Draining?
    case SeeDone => (k.stop.Choosing? || k.stop.AwaitDone?) && k.graceful.Drained?
    case SeeStopCtx => (k.stop.Choosing? || k.stop.Asked?) && StopCtxDone(n, s, i)
    case ShutdownReturn(_) => k.stop.Asked?
  }

  /** Serve may end, and open requests may finish, when they like, unless the server has been told to stop. */
  predicate CompUrgent(k: Comp, step: CompStep) {
    match step
    case ServeEnd(_) => ToldToStop(k)
    case GracefulEnd => k.hard
    case ShutdownReturn(_) => false
    case _ => true
  }

  /** The error tests at the end of the two Starts: the library's "server closed" is not an error, and
      http's branches differ in the wrapping only. */
  function StartError(k: Comp, err: Error): Error {
    match k.kind
    case CtxWaiter => Nil
    case Grpc => if !err.Nil? && !Is(err, SERVER_CLOSED) then Wrap(err) else Nil
    case Http => if Is(err, SERVER_CLOSED) then Nil else if k.start.AwaitServe? then err else Wrap(err)
  }

  /** A server that was told to stop reports nothing, and any other failure of Serve is reported with its cause. */
  lemma ServeErrorIsReported(k: Comp, err: Error, t: Error)
    requires !k.kind.CtxWaiter? && !err.Nil? && t.Leaf?
    ensures StartError(k, err).Nil? <==> Is(err, SERVER_CLOSED)
    ensures !Is(err, SERVER_CLOSED) ==> (Is(StartError(k, err), t) <==> Is(err, t))
  {
  }

  function CompApply(k: Comp, step: CompStep): Comp {
    match step
    case TakeServed =>
      if k.serve.Served? then k.(start := StartBack(StartError(k, k.serve.err)), serve := Taken) else k
    case SeeCtx => k.(start := if k.kind.CtxWaiter? then StartBack(Nil) else AwaitServe)
    case ServeEnd(err) => k.(serve := Served(err))
    case BeginStop => if k.kind.Http? then k.(stop := Asked) else k.(stop := Choosing, graceful := Draining)
    case GracefulEnd => k.(graceful := Drained)
    case SeeDone => k.(stop := StopBack(if k.stop.AwaitDone? then DEADLINE_EXCEEDED else Nil))
    case SeeStopCtx =>
      if k.stop.Choosing? then k.(stop := AwaitDone, hard := true) else k.(stop := StopBack(DEADLINE_EXCEEDED))
    case ShutdownReturn(err) => k.(stop := StopBack(err))
  }

  /** Start and Stop come back to the engine only as their bodies do; a CtxWaiter's Stop is arbitrary. */
  predicate Obeys(comps: seq<Comp>, a: Action) {
    match a
    case Start(i, Leave(call)) =>
      i < |comps| && comps[i].start.StartBack? && call == Returned(comps[i].start.err)
    case StopReturn(i, call) =>
      i < |comps| && (comps[i].kind.CtxWaiter? || (comps[i].stop.StopBack? && call == Returned(comps[i].stop.err)))
    case _ => true
  }

  /** A step that waits for nobody, of the engine or of a component. */
  ghost predicate CanGoOn(c: Config, y: Sys) {
    || (exists a :: Urgent(a) && Ready(c, y.eng, a))
    || (exists i, step :: 0 <= i < |y.comps| && CompReady(c.N(), y.eng, i, y.comps[i], step) && CompUrgent(y.comps[i], step))
    || (exists i :: 0 <= i < |y.comps| && i < |y.eng.starts| && y.eng.starts[i].InStart? && y.comps[i].start.StartBack?)
    || (exists i :: 0 <= i < |y.comps| && i < |y.eng.stops| && y.eng.stops[i].InStop? && y.comps[i].stop.StopBack?)
  }

  ghost predicate SysEnabled(c: Config, y: Sys, a: SysAction) {
    match a
    case Eng(e) => Enabled(c, y.eng, e) && Obeys(y.comps, e) && (e.Tick? ==> !CanGoOn(c, y))
    case Local(i, step) => i < |y.comps| && CompReady(c.N(), y.eng, i, y.comps[i], step)
  }

  function EnterStart(k: Comp): Comp {
    k.(start := StartPc.Selecting, serve := if k.kind.CtxWaiter? then NotServing else Serving)
  }

  ghost function SysApply(c: Config, y: Sys, a: SysAction): Sys
    requires SysEnabled(c, y, a)
  {
    match a
    case Local(i, step) => y.(comps := y.comps[i := CompApply(y.comps[i], step)])
    case Eng(e) =>
      var comps :=
        if e.Start? && e.act.Enter? && e.i < |y.comps| then y.comps[e.i := EnterStart(y.comps[e.i])]
        else if e == Run(CallStop) && y.eng.run.pc.k < c.N() <= |y.comps| then
          var i := c.N() - 1 - y.eng.run.pc.k;
          y.comps[i := y.comps[i].(stop := Begin)]
        else y.comps;
      Sys(Apply(c, y.eng, e), comps)
  }

  function SysInitial(c: Config, kinds: seq<Kind>): Sys {
    Sys(Initial(c), seq(|kinds|, i requires 0 <= i < |kinds| =>
          Comp(kinds[i], NotStarted, NotServing, NotStopping, NotAsked, false)))
  }

  ghost function SysExtend(c: Config, r: Lifecycle.Option<Sys>, a: SysAction): Lifecycle.Option<Sys> {
    match r
    case None => None
    case Some(y) => if SysEnabled(c, y, a) then Some(SysApply(c, y, a)) else None
  }

  ghost function SysExec(c: Config, y0: Sys, acts: seq<SysAction>): Lifecycle.Option<Sys> {
    if acts == [] then Some(y0)
    else SysExtend(c, SysExec(c, y0, acts[..|acts| - 1]), acts[|acts| - 1])
  }

  /** Any mix of kinds, one for each item. */
  ghost predicate SysReachable(c: Config, y: Sys) {
    exists kinds: seq<Kind>, acts: seq<SysAction> ::
      |kinds| == c.N() && SysExec(c, SysInitial(c, kinds), acts) == Some(y)
  }

  // ---------- invariant ----------

  predicate StartInStep(k: Comp, st: StartStatus) {
    match st
    case Unlaunched => k.start.NotStarted? && k.serve.NotServing?
    case Launched => k.start.NotStarted? && k.serve.NotServing?
    case InStart =>
      if k.kind.CtxWaiter? then (k.start.Selecting? || k.start == StartBack(Nil)) && k.serve.NotServing?
      else if k.start.StartBack? then k.serve.Taken?
      else (k.start.Selecting? || k.start.AwaitServe?) && (k.serve.Serving? || k.serve.Served?)
    case _ =>
      && k.start.StartBack? && st.err == k.start.err
      && (if k.kind.CtxWaiter? then k.start.err.Nil? && k.serve.NotServing? else k.serve.Taken?)
  }

  predicate StopInStep(k: Comp, st: StopStatus) {
    && (st.Uncalled? <==> k.stop.NotStopping?)
    && (k.kind.CtxWaiter? ==> k.stop.NotStopping? || k.stop.Begin?)
    && (k.kind.Http? ==> !k.stop.Choosing? && !k.stop.AwaitDone?)
    && (k.kind.Grpc? ==> !k.stop.Asked?)
    && (k.hard ==> k.stop.AwaitDone? || k.stop.StopBack?)
    && (k.kind.Grpc? && k.stop.StopBack? ==> k.stop.err == if k.hard then DEADLINE_EXCEEDED else Nil)
    && (!k.kind.CtxWaiter? && st.Stopped? ==> k.stop.StopBack? && st.err == k.stop.err)
    && (k.kind.Grpc? && k.stop.AwaitDone? ==> k.hard)
    && (k.kind.Grpc? && k.stop.StopBack? ==> k.graceful.Drained?)
  }

  ghost predicate CompsInStep(comps: seq<Comp>, starts: seq<StartStatus>, stops: seq<StopStatus>)
    requires |comps| == |starts| == |stops|
  {
    && (forall i | 0 <= i < |comps| :: StartInStep(comps[i], starts[i]))
    && (forall i | 0 <= i < |comps| :: StopInStep(comps[i], stops[i]))
  }

  ghost predicate Base(c: Config, y: Sys) {
    && Reachable(c, y.eng)
    && |y.comps| == |y.eng.starts| == |y.eng.stops| == c.N()
    && CompsInStep(y.comps, y.eng.starts, y.eng.stops)
  }

  /** With a positive timeout, the drain is never late. */
  ghost predicate SysInv(c: Config, y: Sys) {
    && Base(c, y)
    && !y.eng.run.drainVerdict.Expired?
    && (y.eng.run.pc.DrainWait? ==> y.eng.now + c.Grace() == y.eng.run.timer)
  }

  lemma LocalKeeps(c: Config, y: Sys, i: nat, step: CompStep)
    requires Base(c, y) && SysEnabled(c, y, Local(i, step))
    ensures Base(c, SysApply(c, y, Local(i, step)))
  {
    var k := y.comps[i];
    assert StartInStep(k, y.eng.starts[i]) && StopInStep(k, y.eng.stops[i]);
    assert StartInStep(CompApply(k, step), y.eng.starts[i]);
    assert StopInStep(CompApply(k, step), y.eng.stops[i]);
  }

  lemma StatusSteps(c: Config, s: State, e: Action, i: nat)
    requires Reachable(c, s) && Enabled(c, s, e) && i < c.N()
    ensures var s' := Apply(c, s, e);
      && |s.starts| == |s.stops| == |s'.starts| == |s'.stops| == c.N()
      && (|| (s'.starts[i] == s.starts[i] && !(e.Start? && e.i == i))
          || (s.starts[i].Unlaunched? && s'.starts[i].Launched? && !e.Start?)
          || (e.Start? && e.i == i && StartReady(c, s, i, e.act) && s'.starts[i] == StartMove(s.starts[i], e.act)))
      && (s'.stops[i].Uncalled? <==>
            s.stops[i].Uncalled? && !(e == Run(CallStop) && c.N() - 1 - s.run.pc.k == i))
      && (s'.stops[i].Stopped? ==>
            || s'.stops[i] == s.stops[i]
            || (e.StopReturn? && e.i == i && CameBack(e.call, s'.stops[i].err)))
      && (e == Run(CallStop) && c.N() - 1 - s.run.pc.k == i ==> s.stops[i].Uncalled?)
  {
    Invariance(c, s);
    if e.Run? { FirstTime(c, s, e.step); }
    OneStart(c, s, e, i);
    OneStop(c, s, e, i);
  }

  function CompAfter(c: Config, y: Sys, e: Action, i: nat): Comp
    requires i < c.N() == |y.comps|
  {
    var k := y.comps[i];
    if e == Start(i, Enter) then EnterStart(k)
    else if e == Run(CallStop) && y.eng.run.pc.Stopping? && c.N() - 1 - y.eng.run.pc.k == i then k.(stop := Begin)
    else k
  }

  lemma CompsAfter(c: Config, y: Sys, e: Action, i: nat)
    requires SysEnabled(c, y, Eng(e)) && i < c.N() == |y.comps|
    ensures |SysApply(c, y, Eng(e)).comps| == c.N() && SysApply(c, y, Eng(e)).comps[i] == CompAfter(c, y, e, i)
  {
  }

  lemma EngComp(c: Config, y: Sys, e: Action, i: nat)
    requires Base(c, y) && SysEnabled(c, y, Eng(e)) && i < c.N()
    ensures var s' := Apply(c, y.eng, e);
      && |s'.starts| == |s'.stops| == c.N()
      && StartInStep(CompAfter(c, y, e, i), s'.starts[i]) && StopInStep(CompAfter(c, y, e, i), s'.stops[i])
  {
    StatusSteps(c, y.eng, e, i);
    assert StartInStep(y.comps[i], y.eng.starts[i]) && StopInStep(y.comps[i], y.eng.stops[i]);
  }

  lemma EngComps(c: Config, y: Sys, e: Action)
    requires Base(c, y) && SysEnabled(c, y, Eng(e))
    ensures var y' := SysApply(c, y, Eng(e));
      |y'.comps| == |y'.eng.starts| == |y'.eng.stops| == c.N() && CompsInStep(y'.comps, y'.eng.starts, y'.eng.stops)
  {
    StepReachable(c, y.eng, e);
    Invariance(c, Apply(c, y.eng, e));
    forall i | 0 <= i < c.N()
      ensures var s' := Apply(c, y.eng, e); var k := SysApply(c, y, Eng(e)).comps;
        |k| == c.N() && StartInStep(k[i], s'.starts[i]) && StopInStep(k[i], s'.stops[i])
    {
      EngComp(c, y, e, i);
      CompsAfter(c, y, e, i);
    }
  }

  // ---------- the handshake ----------

  /** A step of item i alone that waits for nobody: of its Start or Stop, of Serve, or the return of its Start. */
  predicate StepOf(y: Sys, i: nat, a: SysAction) {
    match a
    case Local(j, step) => j == i < |y.comps| && CompUrgent(y.comps[i], step)
    case Eng(e) => e.Start? && e.i == i && !(e.act.Leave? && e.act.call.Panicked?)
  }

  /** Nothing but its own steps keeps the body of item i's Start: it waits for its context only, or its Stop has been
      called and, for gRPC, is not waiting for open requests with time left. */
  predicate Released(c: Config, y: Sys, i: nat)
    requires i < |y.comps| && i < |y.eng.stops|
  {
    y.comps[i].kind.CtxWaiter?
    || (!y.eng.stops[i].Uncalled? && (y.comps[i].kind.Http? || StopCtxDone(c.N(), y.eng, i)))
  }

  /** The handshake: after the cancellation a released body of Start is never blocked, whatever its Stop has met. */
  lemma BodyGoesOn(c: Config, y: Sys, i: nat)
    requires Base(c, y) && i < c.N() && y.eng.ctx.cancelled && y.eng.starts[i].InStart? && Released(c, y, i)
    ensures exists a :: StepOf(y, i, a) && SysEnabled(c, y, a)
  {
    var s, k := y.eng, y.comps[i];
    assert StartInStep(k, s.starts[i]) && StopInStep(k, s.stops[i]);
    var a :=
      if k.start.StartBack? then Eng(Start(i, Leave(Returned(k.start.err))))
      else if k.start.Selecting? then Local(i, SeeCtx)
      else if k.serve.Served? then Local(i, TakeServed)
      else if ToldToStop(k) then Local(i, ServeEnd(SERVER_CLOSED))
      else if k.stop.Begin? then Local(i, BeginStop)
      else Local(i, SeeStopCtx);
    assert StepOf(y, i, a) && SysEnabled(c, y, a);
  }

  /** So is a goroutine around it. */
  lemma StartGoesOn(c: Config, y: Sys, i: nat)
    requires SysInv(c, y) && i < c.N() && y.eng.ctx.cancelled && Released(c, y, i)
    requires !y.eng.starts[i].Unlaunched? && !y.eng.starts[i].Exited?
    ensures exists a :: StepOf(y, i, a) && SysEnabled(c, y, a)
  {
    if y.eng.starts[i].InStart? {
      BodyGoesOn(c, y, i);
    } else {
      GoroutineGoesOn(c, y.eng, i);
      var act: StartStep :| !act.Leave? && StartReady(c, y.eng, i, act);
      assert StepOf(y, i, Eng(Start(i, act))) && SysEnabled(c, y, Eng(Start(i, act)));
    }
  }

  lemma ItemGoesOn(c: Config, y: Sys, i: nat)
    requires SysInv(c, y) && i < c.N() && y.eng.ctx.cancelled && Released(c, y, i)
    requires !y.eng.starts[i].Unlaunched? && !y.eng.starts[i].Exited?
    ensures CanGoOn(c, y)
  {
    StartGoesOn(c, y, i);
    var a :| StepOf(y, i, a) && SysEnabled(c, y, a);
    if a.Eng? {
      if !a.a.act.Leave? { assert Urgent(a.a) && Ready(c, y.eng, a.a); }
    } else {
      assert CompReady(c.N(), y.eng, i, y.comps[i], a.step) && CompUrgent(y.comps[i], a.step);
    }
  }

  /** While Run waits for the Start goroutines, somebody can always go on. */
  lemma DrainGoesOn(c: Config, y: Sys)
    requires SysInv(c, y) && y.eng.run.pc.DrainWait?
    ensures CanGoOn(c, y)
  {
    var s := y.eng;
    assert && s.ctx.cancelled && |s.run.records| == c.N() && s.waiter != NoWaiter
           && (forall i | 0 <= i < c.N() :: !s.starts[i].Unlaunched? && !s.stops[i].Uncalled?) by {
      Invariance(c, s);
    }
    if s.waiter.Closed? {
      assert Urgent(Run(DrainFinished)) && Ready(c, s, Run(DrainFinished));
    } else if AllExited(s.starts) {
      assert Urgent(CloseDoneAll) && Ready(c, s, CloseDoneAll);
    } else {
      var i :| 0 <= i < |s.starts| && !s.starts[i].Exited?;
      ItemGoesOn(c, y, i);
    }
  }

  lemma RunDrainStep(c: Config, s: State, step: RunStep)
    requires c.stopTimeout > 0 && RunReady(c, s, step)
    requires !s.run.drainVerdict.Expired? && (s.run.pc.DrainWait? ==> s.now + c.Grace() == s.run.timer)
    ensures var r := RunLocal(c, s, step);
      !r.drainVerdict.Expired? && (r.pc.DrainWait? ==> s.now + c.Grace() == r.timer)
  {
  }

  lemma DrainStep(c: Config, s: State, e: Action)
    requires c.stopTimeout > 0 && Ready(c, s, e)
    requires !s.run.drainVerdict.Expired? && (s.run.pc.DrainWait? ==> s.now + c.Grace() == s.run.timer)
    ensures var s' := Apply(c, s, e);
      !s'.run.drainVerdict.Expired? && (s'.run.pc.DrainWait? ==> s'.now + c.Grace() == s'.run.timer)
  {
    if e.Run? {
      RunDrainStep(c, s, e.step);
    } else {
      assert Apply(c, s, e).run == s.run && Apply(c, s, e).now == s.now;
    }
  }

  lemma EngKeeps(c: Config, y: Sys, e: Action)
    requires c.stopTimeout > 0 && SysInv(c, y) && SysEnabled(c, y, Eng(e))
    ensures SysInv(c, SysApply(c, y, Eng(e)))
  {
    StepReachable(c, y.eng, e);
    EngComps(c, y, e);
    if !e.Tick? {
      DrainStep(c, y.eng, e);
    } else if y.eng.run.pc.DrainWait? {
      DrainGoesOn(c, y);
    }
  }

  lemma BaseStep(c: Config, y: Sys, a: SysAction)
    requires Base(c, y) && SysEnabled(c, y, a)
    ensures Base(c, SysApply(c, y, a))
  {
    match a
    case Eng(e) =>
      StepReachable(c, y.eng, e);
      EngComps(c, y, e);
    case Local(i, step) => LocalKeeps(c, y, i, step);
  }

  lemma InitialBase(c: Config, kinds: seq<Kind>)
    requires |kinds| == c.N()
    ensures Base(c, SysInitial(c, kinds))
  {
    InitialReachable(c);
  }

  lemma {:induction false} SysExecKeeps(c: Config, y: Sys, acts: seq<SysAction>)
    requires c.stopTimeout > 0 && SysInv(c, y) && SysExec(c, y, acts).Some?
    ensures SysInv(c, SysExec(c, y, acts).value)
  {
    if acts != [] {
      var last := |acts| - 1;
      var mid := SysExec(c, y, acts[..last]).value;
      SysExecKeeps(c, y, acts[..last]);
      match acts[last]
      case Eng(e) => EngKeeps(c, mid, e);
      case Local(i, step) => LocalKeeps(c, mid, i, step);
    }
  }

  lemma SysInvariance(c: Config, y: Sys)
    requires c.stopTimeout > 0 && SysReachable(c, y)
    ensures SysInv(c, y)
  {
    var kinds: seq<Kind>, acts: seq<SysAction> :|
      |kinds| == c.N() && SysExec(c, SysInitial(c, kinds), acts) == Some(y);
    InitialReachable(c);
    SysExecKeeps(c, SysInitial(c, kinds), acts);
  }

  // ---------- the composition ----------

  lemma JoinedResult(c: Config, s: State)
    requires Reachable(c, s) && s.run.exit.Completed? && !s.run.drainVerdict.Expired?
    ensures AllExited(s.starts) && s.run.result == Multi([s.ctx.trigger] + Entries(s.run.records))
  {
    Invariance(c, s);
    ResultShape(c, s);
    var es := [s.ctx.trigger] + Entries(s.run.records);
    assert es + [] == es;
  }

  lemma {:induction false} BaseOf(c: Config, kinds: seq<Kind>, acts: seq<SysAction>)
    requires |kinds| == c.N() && SysExec(c, SysInitial(c, kinds), acts).Some?
    ensures Base(c, SysExec(c, SysInitial(c, kinds), acts).value)
  {
    if acts == [] {
      InitialBase(c, kinds);
    } else {
      var last := |acts| - 1;
      BaseOf(c, kinds, acts[..last]);
      BaseStep(c, SysExec(c, SysInitial(c, kinds), acts[..last]).value, acts[last]);
    }
  }

  /** gRPC's Stop returns nil exactly when GracefulStop finished without being forced, and otherwise the error of its
      context; and it has always seen GracefulStop finish. */
  lemma GrpcStopMeans(c: Config, y: Sys, i: nat)
    requires SysReachable(c, y)
    requires i < |y.comps| && y.comps[i].kind.Grpc? && y.comps[i].stop.StopBack?
    ensures y.comps[i].graceful.Drained?
    ensures y.comps[i].stop.err == if y.comps[i].hard then DEADLINE_EXCEEDED else Nil
  {
    var kinds: seq<Kind>, acts: seq<SysAction> :|
      |kinds| == c.N() && SysExec(c, SysInitial(c, kinds), acts) == Some(y);
    BaseOf(c, kinds, acts);
    assert StopInStep(y.comps[i], y.eng.stops[i]);
  }

  lemma SysFacts(c: Config, y: Sys)
    requires c.stopTimeout > 0 && SysReachable(c, y)
    ensures Reachable(c, y.eng) && !y.eng.run.drainVerdict.Expired?
    ensures y.eng.run.pc.DrainWait? ==> y.eng.now < y.eng.run.timer
  {
    SysInvariance(c, y);
  }

  /** With a positive timeout, any mix of context waiters, gRPC servers and http servers, Stops that run
      out of time included, leaves no Start goroutine behind: the drain never times out, its entry never
      appears in the result, and when Run returns every Start has. */
  lemma NoStartIsLeft(c: Config, y: Sys)
    requires c.stopTimeout > 0 && SysReachable(c, y)
    ensures y.eng.run.pc.DrainWait? ==> y.eng.now < y.eng.run.timer
    ensures !y.eng.run.drainVerdict.Expired?
    ensures y.eng.run.exit.Completed? ==>
      && AllExited(y.eng.starts)
      && y.eng.run.result == Multi([y.eng.ctx.trigger] + Entries(y.eng.run.records))
  {
    SysFacts(c, y);
    if y.eng.run.exit.Completed? { JoinedResult(c, y.eng); }
  }

  /** When time passes after the cancellation, the only Starts still to return are those of servers whose Stop has not
      been called yet, and of a gRPC server that is in its Stop with time left. */
  lemma WhoIsLeft(c: Config, y: Sys, i: nat)
    requires c.stopTimeout > 0 && SysReachable(c, y) && y.eng.ctx.cancelled && SysEnabled(c, y, Eng(Tick))
    requires i < |y.comps| && i < |y.eng.starts| && i < |y.eng.stops| && !y.eng.starts[i].Exited?
    ensures !y.comps[i].kind.CtxWaiter?
    ensures y.eng.stops[i].Uncalled?
         || (y.comps[i].kind.Grpc? && y.eng.run.pc.StopWait? && i + y.eng.run.pc.k + 1 == c.N() && y.eng.now < y.eng.run.timer)
  {
    SysInvariance(c, y);
    var s := y.eng;
    AllLaunched(c, s);
    assert StopCalls(c, s.run, s.stops) && Bounds(c, s.run) by { Invariance(c, s); }
    if Released(c, y, i) { ItemGoesOn(c, y, i); }
  }

  lemma AllLaunched(c: Config, s: State)
    requires Reachable(c, s) && s.ctx.cancelled && Quiescent(c, s)
    ensures forall i | 0 <= i < |s.starts| :: !s.starts[i].Unlaunched?
  {
    Invariance(c, s);
    if !AtRest(s) { NextIsReady(c, s); }
  }

  // ---------- the composed shutdown ends ----------

  /** Steps that no open request, no failing Serve and no user code decides about. */
  predicate SelfDriven(y: Sys, a: SysAction) {
    match a
    case Local(i, step) => i < |y.comps| && CompUrgent(y.comps[i], step)
    case Eng(Start(i, Leave(_))) => true
    case Eng(StopReturn(i, _)) => i < |y.comps| && !y.comps[i].kind.CtxWaiter?
    case Eng(e) => Urgent(e)
  }

  lemma GoingOn(c: Config, y: Sys)
    requires Base(c, y) && CanGoOn(c, y)
    ensures exists a :: SelfDriven(y, a) && SysEnabled(c, y, a)
  {
    if a :| Urgent(a) && Ready(c, y.eng, a) {
      assert SelfDriven(y, Eng(a)) && SysEnabled(c, y, Eng(a));
    } else if i, step :| 0 <= i < |y.comps| && CompReady(c.N(), y.eng, i, y.comps[i], step) && CompUrgent(y.comps[i], step) {
      assert SelfDriven(y, Local(i, step)) && SysEnabled(c, y, Local(i, step));
    } else if i :| 0 <= i < |y.comps| && i < |y.eng.starts| && y.eng.starts[i].InStart? && y.comps[i].start.StartBack? {
      var a := Eng(Start(i, Leave(Returned(y.comps[i].start.err))));
      assert SelfDriven(y, a) && SysEnabled(c, y, a);
    } else {
      var i :| 0 <= i < |y.comps| && i < |y.eng.stops| && y.eng.stops[i].InStop? && y.comps[i].stop.StopBack?;
      assert StopInStep(y.comps[i], y.eng.stops[i]);
      var a := Eng(StopReturn(i, Returned(y.comps[i].stop.err)));
      assert SelfDriven(y, a) && SysEnabled(c, y, a);
    }
  }

  /** After the cancellation the composition rests only inside one Stop whose deadline is still to come, and never
      while it waits for the Start goroutines. */
  lemma SysNeverStuck(c: Config, y: Sys)
    requires c.stopTimeout > 0 && SysReachable(c, y) && y.eng.ctx.cancelled && !y.eng.run.pc.Done?
    ensures || (exists a :: SelfDriven(y, a) && SysEnabled(c, y, a))
            || (y.eng.run.pc.StopWait? && y.eng.now < y.eng.run.timer && SysEnabled(c, y, Eng(Tick)))
  {
    SysInvariance(c, y);
    if CanGoOn(c, y) {
      GoingOn(c, y);
    } else {
      assert !y.eng.run.pc.InitCall? && (!y.eng.ctx.trigger.Nil? || !y.eng.ctx.parent.Nil?) by { Invariance(c, y.eng); }
      if y.eng.run.pc.DrainWait? { DrainGoesOn(c, y); }
      NoDeadlock(c, y.eng);
    }
  }

  function StartPcRank(pc: StartPc): nat {
    match pc case NotStarted => 3 case Selecting => 2 case AwaitServe => 1 case StartBack(_) => 0
  }

  function ServeRank(v: Serve): nat {
    match v case NotServing => 3 case Serving => 2 case Served(_) => 1 case Taken => 0
  }

  function StopPcRank(pc: StopPc): nat {
    match pc case NotStopping => 5 case Begin => 4 case Choosing => 2 case StopBack(_) => 0 case _ => 1
  }

  function GracefulRank(g: Graceful): nat {
    match g case NotAsked => 2 case Draining => 1 case Drained => 0
  }

  /** How many steps a component still has before it, at most. */
  function CompRank(k: Comp): (r: nat)
    ensures r <= 13
  {
    StartPcRank(k.start) + ServeRank(k.serve) + StopPcRank(k.stop) + GracefulRank(k.graceful)
  }

  function CompsRank(ks: seq<Comp>): (r: nat)
    ensures r <= 13 * |ks|
  {
    if ks == [] then 0 else CompsRank(ks[..|ks| - 1]) + CompRank(ks[|ks| - 1])
  }

  lemma {:induction false} CompsRankUpdate(ks: seq<Comp>, i: nat, k: Comp)
    requires i < |ks|
    ensures CompsRank(ks[i := k]) == CompsRank(ks) - CompRank(ks[i]) + CompRank(k)
  {
    var last := |ks| - 1;
    if i == last {
      assert ks[i := k][..last] == ks[..last];
    } else {
      CompsRankUpdate(ks[..last], i, k);
      assert ks[i := k][..last] == ks[..last][i := k];
    }
  }

  function SysFuel(c: Config, y: Sys): int {
    Fuel(c, y.eng) + CompsRank(y.comps)
  }

  lemma CompBurns(n: nat, s: State, i: nat, k: Comp, step: CompStep)
    requires CompReady(n, s, i, k, step)
    ensures CompRank(CompApply(k, step)) < CompRank(k)
  {
  }

  lemma LocalBurns(c: Config, y: Sys, i: nat, step: CompStep)
    requires SysEnabled(c, y, Local(i, step))
    ensures SysFuel(c, SysApply(c, y, Local(i, step))) < SysFuel(c, y)
  {
    CompBurns(c.N(), y.eng, i, y.comps[i], step);
    CompsRankUpdate(y.comps, i, CompApply(y.comps[i], step));
  }

  lemma EnterBurns(k: Comp)
    requires k.start.NotStarted? && k.serve.NotServing?
    ensures CompRank(EnterStart(k)) <= CompRank(k)
  {
  }

  lemma BeginBurns(k: Comp)
    requires k.stop.NotStopping?
    ensures CompRank(k.(stop := Begin)) <= CompRank(k)
  {
  }

  /** A component that the engine starts or stops was waiting for that. */
  lemma EngComponents(c: Config, y: Sys, e: Action)
    requires SysInv(c, y) && SysEnabled(c, y, Eng(e))
    ensures CompsRank(SysApply(c, y, Eng(e)).comps) <= CompsRank(y.comps)
  {
    if e.Start? && e.act.Enter? {
      assert StartInStep(y.comps[e.i], y.eng.starts[e.i]);
      EnterBurns(y.comps[e.i]);
      CompsRankUpdate(y.comps, e.i, EnterStart(y.comps[e.i]));
    } else if e == Run(CallStop) {
      var i := c.N() - 1 - y.eng.run.pc.k;
      assert y.eng.stops[i].Uncalled? by { StatusSteps(c, y.eng, e, i); }
      assert StopInStep(y.comps[i], y.eng.stops[i]);
      BeginBurns(y.comps[i]);
      CompsRankUpdate(y.comps, i, y.comps[i].(stop := Begin));
    }
  }

  /** Every step of the composition but a tick, open requests and failing servers included, burns fuel: the clock is
      not blocked for ever. */
  lemma SysStepBurns(c: Config, y: Sys, a: SysAction)
    requires SysInv(c, y) && SysEnabled(c, y, a) && a != Eng(Tick)
    ensures SysFuel(c, SysApply(c, y, a)) < SysFuel(c, y)
  {
    match a
    case Eng(e) =>
      assert Inv(c, y.eng) by { Invariance(c, y.eng); }
      StepBurns(c, y.eng, e);
      EngComponents(c, y, e);
    case Local(i, step) => LocalBurns(c, y, i, step);
  }

  ghost function SysTicks(acts: seq<SysAction>): nat {
    if acts == [] then 0
    else SysTicks(acts[..|acts| - 1]) + (if acts[|acts| - 1] == Eng(Tick) then 1 else 0)
  }

  lemma CancelStays(c: Config, s: State, e: Action)
    requires Enabled(c, s, e) && s.ctx.cancelled
    ensures var x := Apply(c, s, e).ctx; x.cancelled && x.cancelledAt == s.ctx.cancelledAt
  {
  }

  lemma SysTime(c: Config, y: Sys, a: SysAction)
    requires SysInv(c, y) && SysEnabled(c, y, a)
    ensures var y' := SysApply(c, y, a);
      && y'.eng.now == y.eng.now + (if a == Eng(Tick) then 1 else 0)
      && (a == Eng(Tick) ==> SysFuel(c, y') == SysFuel(c, y))
      && (y.eng.ctx.cancelled ==> y'.eng.ctx.cancelled && y'.eng.ctx.cancelledAt == y.eng.ctx.cancelledAt)
  {
    if a.Eng? {
      ClockStep(c, y.eng, a.a);
      if y.eng.ctx.cancelled { CancelStays(c, y.eng, a.a); }
    }
  }

  lemma {:induction false} SysRunBurns(c: Config, y: Sys, acts: seq<SysAction>)
    requires c.stopTimeout > 0 && SysInv(c, y) && SysExec(c, y, acts).Some?
    ensures var y' := SysExec(c, y, acts).value;
      && |acts| - SysTicks(acts) <= SysFuel(c, y) - SysFuel(c, y')
      && y'.eng.now == y.eng.now + SysTicks(acts)
      && (y.eng.ctx.cancelled ==> y'.eng.ctx.cancelled && y'.eng.ctx.cancelledAt == y.eng.ctx.cancelledAt)
  {
    if acts != [] {
      var last := |acts| - 1;
      var mid := SysExec(c, y, acts[..last]).value;
      SysRunBurns(c, y, acts[..last]);
      SysExecKeeps(c, y, acts[..last]);
      SysTime(c, mid, acts[last]);
      if acts[last] != Eng(Tick) { SysStepBurns(c, mid, acts[last]); }
    }
  }

  lemma SysFuelBound(c: Config, y: Sys)
    requires SysInv(c, y)
    ensures 0 <= SysFuel(c, y) <= 27 * c.N() + 13
  {
    FuelBound(c, y.eng);
  }

  /** From a cancelled state, every schedule of the composition that is long enough has seen Run return, with every
      Start exited. */
  lemma SysShutdownEnds(c: Config, y: Sys, acts: seq<SysAction>)
    requires c.stopTimeout > 0 && SysReachable(c, y) && y.eng.ctx.cancelled && SysExec(c, y, acts).Some?
    requires |acts| > 27 * c.N() + 13 + (c.N() + 1) * c.Grace()
    ensures var s := SysExec(c, y, acts).value.eng;
      s.run.exit.Completed? && AllExited(s.starts) && !s.run.drainVerdict.Expired?
  {
    var y' := SysExec(c, y, acts).value;
    SysInvariance(c, y);
    SysExecKeeps(c, y, acts);
    SysRunBurns(c, y, acts);
    SysFuelBound(c, y);
    SysFuelBound(c, y');
    assert y.eng.ctx.cancelledAt <= y.eng.now by { Invariance(c, y.eng); }
    BoundedShutdown(c, y'.eng);
    assert y'.eng.run.exit.Completed? by { Invariance(c, y'.eng); }
    JoinedResult(c, y'.eng);
  }

  // ---------- when time passes in the composition ----------

  /** Run is inside the turn of item i, before its deadline. */
  predicate InTurn(n: nat, s: State, i: nat) {
    s.run.pc.StopWait? && i + s.run.pc.k + 1 == n && s.now < s.run.timer
  }

  /** Item i waits for somebody else: its body for the context or for Serve, Serve for connections, and a Stop in its
      turn for open requests. */
  predicate ItemRests(n: nat, y: Sys, i: nat)
    requires i < |y.comps| && i < |y.eng.starts| && i < |y.eng.stops|
  {
    var k := y.comps[i];
    && (y.eng.starts[i].InStart? ==> !k.start.StartBack?)
    && (y.eng.stops[i].InStop? ==> !k.stop.StopBack?)
    && (k.start.Selecting? ==> !y.eng.ctx.cancelled && !k.serve.Served?)
    && (k.start.AwaitServe? ==> !k.serve.Served?)
    && (k.kind.Http? && k.serve.Serving? ==> !k.stop.Asked? && !k.stop.StopBack?)
    && (k.kind.Grpc? && k.serve.Serving? ==> !k.hard && !k.graceful.Drained?)
    && (k.stop.Begin? ==> k.kind.CtxWaiter?)
    && (k.stop.Asked? || k.stop.Choosing? ==> InTurn(n, y.eng, i))
    && (k.stop.Choosing? ==> !k.graceful.Drained?)
    && (k.stop.AwaitDone? ==> !k.graceful.Drained?)
    && (k.graceful.Draining? ==> !k.hard)
  }

  lemma StopCtxWhen(c: Config, y: Sys, i: nat)
    requires Base(c, y) && i < c.N() && !y.eng.stops[i].Uncalled?
    ensures StopCtxDone(c.N(), y.eng, i) <==> !InTurn(c.N(), y.eng, i)
  {
    assert Bounds(c, y.eng.run) && StopCalls(c, y.eng.run, y.eng.stops) by { Invariance(c, y.eng); }
  }

  lemma UrgentGoesOn(c: Config, y: Sys, i: nat, step: CompStep)
    requires i < |y.comps| && CompReady(c.N(), y.eng, i, y.comps[i], step) && CompUrgent(y.comps[i], step)
    ensures CanGoOn(c, y)
  {
  }

  lemma RestMeans(c: Config, y: Sys, i: nat)
    requires Base(c, y) && i < c.N() && !CanGoOn(c, y)
    ensures ItemRests(c.N(), y, i)
  {
    var k := y.comps[i];
    assert StopInStep(k, y.eng.stops[i]) && StartInStep(k, y.eng.starts[i]);
    if !y.eng.stops[i].Uncalled? { StopCtxWhen(c, y, i); }
    forall step | CompUrgent(k, step) ensures !CompReady(c.N(), y.eng, i, k, step) {
      if CompReady(c.N(), y.eng, i, k, step) { UrgentGoesOn(c, y, i, step); }
    }
    StepsRest(c.N(), y.eng, i, k);
  }

  lemma StepsRest(n: nat, s: State, i: nat, k: Comp)
    requires forall step | CompUrgent(k, step) :: !CompReady(n, s, i, k, step)
    ensures !CompReady(n, s, i, k, TakeServed) && !CompReady(n, s, i, k, SeeCtx) && !CompReady(n, s, i, k, BeginStop)
    ensures !CompReady(n, s, i, k, SeeDone) && !CompReady(n, s, i, k, SeeStopCtx)
    ensures k.serve.Serving? ==> !ToldToStop(k)
    ensures k.graceful.Draining? ==> !k.hard
  {
    assert CompUrgent(k, TakeServed) && CompUrgent(k, SeeCtx) && CompUrgent(k, BeginStop);
    assert CompUrgent(k, SeeDone) && CompUrgent(k, SeeStopCtx);
    assert CompUrgent(k, ServeEnd(Nil)) <==> ToldToStop(k);
    assert CompUrgent(k, GracefulEnd) <==> k.hard;
    assert CompReady(n, s, i, k, ServeEnd(Nil)) <==> k.serve.Serving?;
    assert CompReady(n, s, i, k, GracefulEnd) <==> k.graceful.Draining?;
  }

  lemma RestHolds(c: Config, y: Sys, i: nat, step: CompStep)
    requires Base(c, y) && i < c.N() && ItemRests(c.N(), y, i) && CompUrgent(y.comps[i], step)
    ensures !CompReady(c.N(), y.eng, i, y.comps[i], step)
  {
    var k := y.comps[i];
    assert StopInStep(k, y.eng.stops[i]) && StartInStep(k, y.eng.starts[i]);
    if !y.eng.stops[i].Uncalled? { StopCtxWhen(c, y, i); }
  }

  lemma AllRest(c: Config, y: Sys)
    requires Base(c, y) && Quiescent(c, y.eng) && forall i | 0 <= i < c.N() :: ItemRests(c.N(), y, i)
    ensures !CanGoOn(c, y)
  {
    forall i, step | 0 <= i < |y.comps| && CompUrgent(y.comps[i], step)
      ensures !CompReady(c.N(), y.eng, i, y.comps[i], step)
    {
      RestHolds(c, y, i, step);
    }
    forall i | 0 <= i < |y.comps|
      ensures !(y.eng.starts[i].InStart? && y.comps[i].start.StartBack?)
      ensures !(y.eng.stops[i].InStop? && y.comps[i].stop.StopBack?)
    {
      assert ItemRests(c.N(), y, i);
    }
  }

  lemma RestOfAll(c: Config, y: Sys)
    requires Base(c, y) && !CanGoOn(c, y)
    ensures forall i | 0 <= i < c.N() :: ItemRests(c.N(), y, i)
  {
    forall i | 0 <= i < c.N() ensures ItemRests(c.N(), y, i) { RestMeans(c, y, i); }
  }

  /** Time can pass exactly when it can for the engine and every item waits for somebody else. So a server that serves,
      an open request, and a Stop with time left never hold the clock, and everything else does. */
  lemma SysTimePassesWhen(c: Config, y: Sys)
    requires SysReachable(c, y)
    ensures |y.comps| == |y.eng.starts| == |y.eng.stops| == c.N()
    ensures SysEnabled(c, y, Eng(Tick)) <==>
      Enabled(c, y.eng, Tick) && forall i | 0 <= i < c.N() :: ItemRests(c.N(), y, i)
  {
    var kinds: seq<Kind>, acts: seq<SysAction> :|
      |kinds| == c.N() && SysExec(c, SysInitial(c, kinds), acts) == Some(y);
    BaseOf(c, kinds, acts);
    if !CanGoOn(c, y) {
      RestOfAll(c, y);
    } else if Quiescent(c, y.eng) && forall i | 0 <= i < c.N() :: ItemRests(c.N(), y, i) {
      AllRest(c, y);
    }
  }

  /** Serve and Shutdown may end at any time with any error, GracefulStop at any time, and a context waiter's Stop with
      any outcome. */
  lemma ServersAreFree(c: Config, y: Sys, i: nat, err: Error, call: Call)
    requires i < |y.comps|
    ensures y.comps[i].serve.Serving? ==> SysEnabled(c, y, Local(i, ServeEnd(err)))
    ensures y.comps[i].graceful.Draining? ==> SysEnabled(c, y, Local(i, GracefulEnd))
    ensures y.comps[i].stop.Asked? ==> SysEnabled(c, y, Local(i, ShutdownReturn(err)))
    ensures y.comps[i].kind.CtxWaiter? && i < |y.eng.stops| && y.eng.stops[i].InStop? ==>
      SysEnabled(c, y, Eng(StopReturn(i, call)))
  {
  }

  // ---------- what Serve and Shutdown said ----------

  /** `got` is what Start makes of `err`: nothing for a closed server, and otherwise an error with its sentinels. */
  ghost predicate Reports(got: Error, err: Error) {
    && (got.Nil? <==> Is(err, SERVER_CLOSED))
    && (!Is(err, SERVER_CLOSED) ==> forall t: Error | t.Leaf? :: Is(got, t) <==> Is(err, t))
  }

  ghost predicate SysRemembers(y: Sys, a: SysAction) {
    match a
    case Local(i, ServeEnd(err)) =>
      i < |y.comps| && !y.comps[i].kind.CtxWaiter?
      && (y.comps[i].serve == Served(err)
          || (y.comps[i].serve.Taken? && y.comps[i].start.StartBack? && (!err.Nil? ==> Reports(y.comps[i].start.err, err))))
    case Local(i, ShutdownReturn(err)) => i < |y.comps| && y.comps[i].stop == StopBack(err)
    case _ => true
  }

  lemma StartReports(k: Comp, err: Error)
    requires !k.kind.CtxWaiter? && !err.Nil?
    ensures Reports(StartError(k, err), err)
  {
    forall t: Error | t.Leaf? ensures !Is(err, SERVER_CLOSED) ==> (Is(StartError(k, err), t) <==> Is(err, t)) {
      ServeErrorIsReported(k, err, t);
    }
    ServeErrorIsReported(k, err, SERVER_CLOSED);
  }

  lemma LocalRemembers(c: Config, y: Sys, j: nat, step: CompStep, a: SysAction)
    requires Base(c, y) && SysEnabled(c, y, Local(j, step)) && (SysRemembers(y, a) || a == Local(j, step))
    ensures SysRemembers(SysApply(c, y, Local(j, step)), a)
  {
    var k := y.comps[j];
    assert StartInStep(k, y.eng.starts[j]);
    if step.TakeServed? && !k.serve.err.Nil? && !k.kind.CtxWaiter? { StartReports(k, k.serve.err); }
  }

  lemma EngRemembers(c: Config, y: Sys, e: Action, i: nat)
    requires Base(c, y) && SysEnabled(c, y, Eng(e)) && i < c.N()
    ensures var k, k' := y.comps[i], SysApply(c, y, Eng(e)).comps;
      && |k'| == c.N() && k'[i].kind == k.kind
      && (k.start.NotStarted? || (k'[i].start == k.start && k'[i].serve == k.serve))
      && (k.stop.NotStopping? || k'[i].stop == k.stop)
  {
    CompsAfter(c, y, e, i);
    StatusSteps(c, y.eng, e, i);
    assert StartInStep(y.comps[i], y.eng.starts[i]) && StopInStep(y.comps[i], y.eng.stops[i]);
  }

  lemma SysStepRemembers(c: Config, y: Sys, step: SysAction, a: SysAction)
    requires Base(c, y) && SysEnabled(c, y, step) && (SysRemembers(y, a) || step == a)
    ensures SysRemembers(SysApply(c, y, step), a)
  {
    match step
    case Local(j, st) => LocalRemembers(c, y, j, st, a);
    case Eng(e) =>
      if a.Local? && (a.step.ServeEnd? || a.step.ShutdownReturn?) {
        assert StartInStep(y.comps[a.i], y.eng.starts[a.i]);
        EngRemembers(c, y, e, a.i);
      }
  }

  lemma SysLastStep(c: Config, kinds: seq<Kind>, acts: seq<SysAction>) returns (mid: Sys)
    requires |kinds| == c.N() && acts != [] && SysExec(c, SysInitial(c, kinds), acts).Some?
    ensures SysExec(c, SysInitial(c, kinds), acts[..|acts| - 1]) == Some(mid) && Base(c, mid)
    ensures SysEnabled(c, mid, acts[|acts| - 1])
    ensures SysExec(c, SysInitial(c, kinds), acts) == Some(SysApply(c, mid, acts[|acts| - 1]))
  {
    BaseOf(c, kinds, acts[..|acts| - 1]);
    mid := SysExec(c, SysInitial(c, kinds), acts[..|acts| - 1]).value;
  }

  lemma {:induction false} SysRemembered(c: Config, kinds: seq<Kind>, acts: seq<SysAction>, a: SysAction)
    requires |kinds| == c.N() && SysExec(c, SysInitial(c, kinds), acts).Some? && a in acts
    ensures SysRemembers(SysExec(c, SysInitial(c, kinds), acts).value, a)
  {
    var mid := SysLastStep(c, kinds, acts);
    var front, last := acts[..|acts| - 1], acts[|acts| - 1];
    assert a in front || last == a by { assert acts == front + [last]; }
    if a in front { SysRemembered(c, kinds, front, a); }
    SysStepRemembers(c, mid, last, a);
  }

  /** The error with which a server's Serve ended in the run, once Start has taken it, is what Start returns: nothing
      for a server that was closed, and otherwise an error with exactly its sentinels; and it is the engine's result of
      that Start. */
  lemma ServeEndIsReported(c: Config, kinds: seq<Kind>, acts: seq<SysAction>, i: nat, err: Error, t: Error)
    requires |kinds| == c.N() && SysExec(c, SysInitial(c, kinds), acts).Some?
    requires Local(i, ServeEnd(err)) in acts && !err.Nil? && t.Leaf? && i < c.N()
    ensures var y := SysExec(c, SysInitial(c, kinds), acts).value;
      && |y.comps| == |y.eng.starts| == c.N()
      && (y.comps[i].serve == Served(err) || (y.comps[i].serve.Taken? && y.comps[i].start.StartBack?))
      && (y.comps[i].start.StartBack? ==>
            && (y.comps[i].start.err.Nil? <==> Is(err, SERVER_CLOSED))
            && (!Is(err, SERVER_CLOSED) ==> (Is(y.comps[i].start.err, t) <==> Is(err, t))))
      && (LeftBody(y.eng.starts[i]) ==> y.comps[i].start.StartBack? && y.eng.starts[i].err == y.comps[i].start.err)
  {
    var y := SysExec(c, SysInitial(c, kinds), acts).value;
    BaseOf(c, kinds, acts);
    SysRemembered(c, kinds, acts, Local(i, ServeEnd(err)));
    assert StartInStep(y.comps[i], y.eng.starts[i]);
  }

  lemma DeadServerGoesOn(c: Config, y: Sys, i: nat)
    requires Base(c, y) && i < c.N() && y.eng.run.pc.Waiting?
    requires y.comps[i].serve.Served? || (y.comps[i].start.StartBack? && !y.comps[i].start.err.Nil?)
    ensures CanGoOn(c, y)
  {
    assert StartInStep(y.comps[i], y.eng.starts[i]);
    if !CanGoOn(c, y) {
      RestMeans(c, y, i);
      if a :| Urgent(a) && Ready(c, y.eng, a) {
      } else {
        FailFast(c, y.eng);
      }
    }
  }

  /** A server whose Serve failed on its own ends phase 3: the composition never rests there afterwards. */
  lemma DeadServerIsNoticed(c: Config, kinds: seq<Kind>, acts: seq<SysAction>, i: nat, err: Error)
    requires |kinds| == c.N() && SysExec(c, SysInitial(c, kinds), acts).Some? && i < c.N()
    requires Local(i, ServeEnd(err)) in acts && !err.Nil? && !Is(err, SERVER_CLOSED)
    ensures var y := SysExec(c, SysInitial(c, kinds), acts).value;
      y.eng.run.pc.Waiting? ==> !SysEnabled(c, y, Eng(Tick)) && exists a :: SelfDriven(y, a) && SysEnabled(c, y, a)
  {
    var y := SysExec(c, SysInitial(c, kinds), acts).value;
    BaseOf(c, kinds, acts);
    if y.eng.run.pc.Waiting? {
      ServeEndIsReported(c, kinds, acts, i, err, CANCELED);
      DeadServerGoesOn(c, y, i);
      GoingOn(c, y);
    }
  }

  // ---------- nothing is made up ----------

  /** A context waiter's Start returns nil, and not before the cancellation; what a server's Start took is how its Serve
      ended; http's Stop returns what Shutdown returned, or the error of its context. */
  ghost predicate Grounded(y: Sys, acts: seq<SysAction>, i: nat)
    requires i < |y.comps|
  {
    var k := y.comps[i];
    && (k.kind.CtxWaiter? && k.start.StartBack? ==> k.start.err.Nil? && y.eng.ctx.cancelled)
    && (k.serve.Served? ==> Local(i, ServeEnd(k.serve.err)) in acts)
    && (k.serve.Taken? ==> exists err :: Local(i, ServeEnd(err)) in acts)
    && (k.start.AwaitServe? ==> y.eng.ctx.cancelled)
    && (k.kind.Http? && k.stop.StopBack? ==>
          Local(i, ShutdownReturn(k.stop.err)) in acts || k.stop.err == DEADLINE_EXCEEDED)
  }

  lemma GroundedMore(y: Sys, acts: seq<SysAction>, a: SysAction, i: nat)
    requires i < |y.comps| && Grounded(y, acts, i)
    ensures Grounded(y, acts + [a], i)
  {
    assert forall x: SysAction :: x in acts ==> x in acts + [a];
    if y.comps[i].serve.Taken? {
      var err :| Local(i, ServeEnd(err)) in acts;
      assert Local(i, ServeEnd(err)) in acts + [a];
    }
  }

  lemma GroundedLocal(c: Config, y: Sys, j: nat, step: CompStep, acts: seq<SysAction>, i: nat)
    requires Base(c, y) && SysEnabled(c, y, Local(j, step)) && i < c.N() && Grounded(y, acts, i)
    requires Local(j, step) in acts
    ensures Grounded(SysApply(c, y, Local(j, step)), acts, i)
  {
    assert StartInStep(y.comps[i], y.eng.starts[i]) && StopInStep(y.comps[i], y.eng.stops[i]);
  }

  lemma GroundedEng(c: Config, y: Sys, e: Action, acts: seq<SysAction>, i: nat)
    requires Base(c, y) && SysEnabled(c, y, Eng(e)) && i < c.N() && Grounded(y, acts, i)
    ensures |SysApply(c, y, Eng(e)).comps| == c.N() && Grounded(SysApply(c, y, Eng(e)), acts, i)
  {
    CompsAfter(c, y, e, i);
    EngRemembers(c, y, e, i);
    assert StartInStep(y.comps[i], y.eng.starts[i]) && StopInStep(y.comps[i], y.eng.stops[i]);
    if y.eng.ctx.cancelled { CancelStays(c, y.eng, e); }
  }

  lemma GroundedStep(c: Config, y: Sys, a: SysAction, acts: seq<SysAction>, i: nat)
    requires Base(c, y) && SysEnabled(c, y, a) && i < c.N() && Grounded(y, acts, i)
    ensures |SysApply(c, y, a).comps| == c.N() && Grounded(SysApply(c, y, a), acts + [a], i)
  {
    GroundedMore(y, acts, a, i);
    match a
    case Eng(e) => GroundedEng(c, y, e, acts + [a], i);
    case Local(j, step) => GroundedLocal(c, y, j, step, acts + [a], i);
  }

  lemma {:induction false} NothingMadeUp(c: Config, kinds: seq<Kind>, acts: seq<SysAction>, i: nat)
    requires |kinds| == c.N() && SysExec(c, SysInitial(c, kinds), acts).Some? && i < c.N()
    ensures var y := SysExec(c, SysInitial(c, kinds), acts).value; |y.comps| == c.N() && Grounded(y, acts, i)
  {
    if acts != [] {
      var mid := SysLastStep(c, kinds, acts);
      var front, last := acts[..|acts| - 1], acts[|acts| - 1];
      NothingMadeUp(c, kinds, front, i);
      GroundedStep(c, mid, last, front, i);
      assert front + [last] == acts;
    }
  }

  /** And the value of http's Stop, and of gRPC's, is what the engine sees. */
  lemma StopIsReported(c: Config, kinds: seq<Kind>, acts: seq<SysAction>, i: nat, err: Error)
    requires |kinds| == c.N() && SysExec(c, SysInitial(c, kinds), acts).Some? && i < c.N()
    ensures var y := SysExec(c, SysInitial(c, kinds), acts).value;
      && |y.comps| == |y.eng.stops| == c.N()
      && (Local(i, ShutdownReturn(err)) in acts ==> y.comps[i].stop == StopBack(err))
      && (!y.comps[i].kind.CtxWaiter? && y.eng.stops[i].Stopped? ==> y.comps[i].stop == StopBack(y.eng.stops[i].err))
  {
    var y := SysExec(c, SysInitial(c, kinds), acts).value;
    BaseOf(c, kinds, acts);
    if Local(i, ShutdownReturn(err)) in acts { SysRemembered(c, kinds, acts, Local(i, ShutdownReturn(err))); }
    assert StopInStep(y.comps[i], y.eng.stops[i]);
  }
}
