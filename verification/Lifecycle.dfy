/** The engine of core/internal/lifecycle/lifecycle.go as a labelled transition system.

    One `State` is a snapshot of every goroutine, channel, context and timer of one call of
    `Run`; one `Action` is one atomic step of one of them: a channel operation, one branch of a
    select, a context read, or a mutex section. A select with two ready cases is two enabled
    actions. Components are arbitrary: a call of Init, Start or Stop comes back only if the
    environment takes the step that returns from it. */
module Lifecycle {
  import opened GoErrors

  /** `hasInit[i]` says whether item i has an Init function; the timeout may be negative, as a time.Duration may. */
  datatype Config = Config(hasInit: seq<bool>, stopTimeout: int) {
    function N(): nat { |hasInit| }

    /** A timer set for a negative duration fires at once. */
    function Grace(): nat { if stopTimeout < 0 then 0 else stopTimeout }
  }

  /** Where the goroutine that called Run is. `Stopping(k)` and `StopWait(k)` have k Stops behind them. */
  datatype Pc =
    | InitNext(i: nat)
    | InitCall(i: nat)
    | Launching(i: nat)
    | Waiting
    | Woken
    | HaveParentErr(perr: Error)
    | Stopping(k: nat)
    | StopWait(k: nat)
    | DrainWait
    | Closing
    | Joining
    | Done

  /** One Start goroutine. `Posted` has left the select; `delivered` says by which branch. */
  datatype StartStatus =
    | Unlaunched
    | Launched
    | InStart
    | Holding(err: Error)
    | Posted(err: Error, delivered: bool)
    | Exited(err: Error, delivered: bool)

  /** One Stop goroutine. */
  datatype StopStatus = Uncalled | InStop | Stopped(err: Error)

  datatype StartResult = StartResult(idx: nat, err: Error)

  /** The goroutine that reads startResults. `Gone` is `drainDone` closed. */
  datatype Drainer = Unspawned | Selecting | Handling(res: StartResult) | Gone

  /** The goroutine that waits for startWG. `Closed` is `doneAll` closed. */
  datatype Waiter = NoWaiter | Blocked | Closed

  datatype Verdict = StopOk | StopFailed(err: Error) | StopExpired

  /** How one turn of the Stop loop went, with the times at which it began and ended. */
  datatype StopRecord = StopRecord(verdict: Verdict, began: nat, ended: nat)

  datatype DrainVerdict = Undecided | Joined | Expired

  /** Who set the trigger: the parent's error, or the k-th result received, counting from 1. */
  datatype Origin = NoTrigger | FromParent | FromStart(k: nat)

  datatype Exit = Running | InitAborted(i: nat, err: Error) | Completed

  /** What the goroutine of Run did, in order. */
  datatype Event =
    | EvInit(i: nat)
    | EvLaunch(i: nat)
    | EvStop(i: nat)
    | EvStopEnd(i: nat, verdict: Verdict)

  /** The goroutine of Run: its position, its timer, its locals; then history that no step reads. */
  datatype Driver = Driver(
    pc: Pc,
    timer: nat,
    stopErrs: seq<Error>,
    result: Error,
    exit: Exit,
    began: nat,
    records: seq<StopRecord>,
    drainVerdict: DrainVerdict,
    returnedAt: nat,
    log: seq<Event>)

  /** startResults and its reader; `sends` is everything ever sent and `received` how much of it was taken. */
  datatype Chan = Chan(queue: seq<StartResult>, drainer: Drainer, sends: seq<StartResult>, received: nat)

  /** triggerErr, ctx.Err(), and whether internalCtx is done; then where the trigger came from, and when. */
  datatype Ctx = Ctx(trigger: Error, parent: Error, cancelled: bool, origin: Origin, cancelledAt: nat)

  datatype State = State(
    run: Driver,
    starts: seq<StartStatus>,
    running: seq<bool>,
    stops: seq<StopStatus>,
    chan: Chan,
    ctx: Ctx,
    waiter: Waiter,
    shutdownDone: bool,
    now: nat)

  /** Steps of the goroutine of Run. */
  datatype RunStep =
    | SkipInit
    | CallInit
    | InitReturn(call: Call)
    | CreateContext
    | Launch
    | SpawnDrain
    | Wake
    | ReadParent
    | SetParentTrigger
    | SkipStop
    | CallStop
    | StopFinished
    | StopDeadline
    | EnterDrain
    | DrainFinished
    | DrainDeadline
    | CloseShutdown
    | Return

  /** Steps of one Start goroutine. */
  datatype StartStep = Enter | Leave(call: Call) | Post | Drop | Exit

  /** Steps of the goroutine that drains startResults. */
  datatype DrainStep = Receive | Handle | Quit

  datatype Action =
    | Run(step: RunStep)
    | Start(i: nat, act: StartStep)
    | Drain(drain: DrainStep)
    | StopReturn(i: nat, call: Call)
    | CloseDoneAll
    | CancelParent(err: Error)
    | Propagate
    | Tick

  function Initial(c: Config): State {
    State(Driver(InitNext(0), 0, [], Nil, Running, 0, [], Undecided, 0, []),
          seq(c.N(), _ => Unlaunched), seq(c.N(), _ => false), seq(c.N(), _ => Uncalled),
          Chan([], Unspawned, [], 0), Ctx(Nil, Nil, false, NoTrigger, 0), NoWaiter, false, 0)
  }

  predicate AllExited(starts: seq<StartStatus>) {
    forall i | 0 <= i < |starts| :: starts[i].Exited?
  }

  /** Steps that the program takes by itself, without waiting for a component, the caller or the clock. */
  predicate Urgent(a: Action) {
    match a
    case Run(step) => !step.InitReturn?
    case Start(_, act) => !act.Leave?
    case Drain(_) => true
    case CloseDoneAll => true
    case Propagate => true
    case _ => false
  }

  // ---------- the goroutine of Run ----------

  predicate RunReady(c: Config, s: State, step: RunStep) {
    var r := s.run;
    match step
    case SkipInit => r.pc.InitNext? && r.pc.i < c.N() && !c.hasInit[r.pc.i]
    case CallInit => r.pc.InitNext? && r.pc.i < c.N() && c.hasInit[r.pc.i]
    case InitReturn(_) => r.pc.InitCall?
    case CreateContext => r.pc.InitNext? && r.pc.i == c.N()
    case Launch => r.pc.Launching? && r.pc.i < c.N() && r.pc.i < |s.starts| && r.pc.i < |s.running|
    case SpawnDrain => r.pc.Launching? && r.pc.i == c.N()
    case Wake => r.pc.Waiting? && s.ctx.cancelled
    case ReadParent => r.pc.Woken?
    case SetParentTrigger => r.pc.HaveParentErr?
    case SkipStop => r.pc.Stopping? && r.pc.k < c.N() <= |s.running| && !s.running[c.N() - 1 - r.pc.k]
    case CallStop =>
      r.pc.Stopping? && r.pc.k < c.N() <= |s.running| && c.N() <= |s.stops| && s.running[c.N() - 1 - r.pc.k]
    case StopFinished => r.pc.StopWait? && r.pc.k < c.N() <= |s.stops| && s.stops[c.N() - 1 - r.pc.k].Stopped?
    case StopDeadline => r.pc.StopWait? && r.pc.k < c.N() && r.timer <= s.now
    case EnterDrain => r.pc.Stopping? && r.pc.k == c.N()
    case DrainFinished => r.pc.DrainWait? && s.waiter.Closed?
    case DrainDeadline => r.pc.DrainWait? && r.timer <= s.now
    case CloseShutdown => r.pc.Closing?
    case Return => r.pc.Joining? && s.chan.drainer.Gone?
  }

  function Log(r: Driver, e: Event): Driver {
    r.(log := r.log + [e])
  }

  /** One turn of the Stop loop, for item i, is over. */
  function EndStop(r: Driver, k: nat, i: nat, verdict: Verdict, now: nat): Driver {
    var err := match verdict
      case StopOk => []
      case StopFailed(e) => [Wrap(e)]
      case StopExpired => [Wrap(STOP_TIMEOUT)];
    Log(r, EvStopEnd(i, verdict)).(
      pc := Stopping(k + 1),
      stopErrs := r.stopErrs + err,
      records := r.records + [StopRecord(verdict, r.began, now)])
  }

  /** The last lines of Run. */
  function Aggregate(trigger: Error, stopErrs: seq<Error>): Error {
    if trigger.Nil? && stopErrs == [] then Nil
    else Join((if trigger.Nil? then [] else [trigger]) + stopErrs)
  }

  /** Cancelling internalCtx, whoever does it: only the first time counts. */
  function Cancel(x: Ctx, now: nat): Ctx {
    if x.cancelled then x else x.(cancelled := true, cancelledAt := now)
  }

  /** `setTrigger`, with `from` as the reason remembered when `err` wins. */
  function SetTrigger(x: Ctx, err: Error, from: Origin, now: nat): Ctx {
    if x.trigger.Nil? then Cancel(x.(trigger := err, origin := from), now) else x
  }

  /** What the step does to the locals of Run. */
  function RunLocal(c: Config, s: State, step: RunStep): Driver
    requires RunReady(c, s, step)
  {
    var r := s.run;
    match step
    case SkipInit => r.(pc := InitNext(r.pc.i + 1))
    case CallInit => Log(r, EvInit(r.pc.i)).(pc := InitCall(r.pc.i))
    case InitReturn(call) =>
      var err := SafeCall(call);
      if err.Nil? then r.(pc := InitNext(r.pc.i + 1))
      else r.(pc := Done, result := Wrap(err), exit := InitAborted(r.pc.i, err), returnedAt := s.now)
    case CreateContext => r.(pc := Launching(0))
    case Launch => Log(r, EvLaunch(r.pc.i)).(pc := Launching(r.pc.i + 1))
    case SpawnDrain => r.(pc := Waiting)
    case Wake => r.(pc := Woken)
    case ReadParent => r.(pc := if s.ctx.parent.Nil? then Stopping(0) else HaveParentErr(s.ctx.parent))
    case SetParentTrigger => r.(pc := Stopping(0))
    case SkipStop => r.(pc := Stopping(r.pc.k + 1))
    case CallStop =>
      Log(r, EvStop(c.N() - 1 - r.pc.k)).(pc := StopWait(r.pc.k), began := s.now, timer := s.now + c.Grace())
    case StopFinished =>
      var i := c.N() - 1 - r.pc.k;
      var err := s.stops[i].err;
      EndStop(r, r.pc.k, i, if err.Nil? then StopOk else StopFailed(err), s.now)
    case StopDeadline => EndStop(r, r.pc.k, c.N() - 1 - r.pc.k, StopExpired, s.now)
    case EnterDrain => r.(pc := DrainWait, timer := s.now + c.Grace())
    case DrainFinished => r.(pc := Closing, drainVerdict := Joined)
    case DrainDeadline => r.(pc := Closing, drainVerdict := Expired, stopErrs := r.stopErrs + [Wrap(STOP_TIMEOUT)])
    case CloseShutdown => r.(pc := Joining)
    case Return =>
      r.(pc := Done, exit := Completed, result := Aggregate(s.ctx.trigger, r.stopErrs), returnedAt := s.now)
  }

  /** What the step does to everybody, the locals of Run included. */
  function RunApply(c: Config, s: State, step: RunStep): State
    requires RunReady(c, s, step)
  {
    var s' := s.(run := RunLocal(c, s, step));
    match step
    case Launch => s'.(starts := s.starts[s.run.pc.i := Launched], running := s.running[s.run.pc.i := true])
    case SpawnDrain => s'.(chan := s.chan.(drainer := Selecting))
    case SetParentTrigger => s'.(ctx := SetTrigger(s.ctx, s.run.pc.perr, FromParent, s.now))
    case CallStop => s'.(stops := s.stops[c.N() - 1 - s.run.pc.k := InStop])
    case EnterDrain => s'.(waiter := Blocked)
    case CloseShutdown => s'.(shutdownDone := true)
    case _ => s'
  }

  // ---------- the other goroutines ----------

  predicate StartReady(c: Config, s: State, i: nat, act: StartStep) {
    && i < |s.starts|
    && match act
       case Enter => s.starts[i].Launched?
       case Leave(_) => s.starts[i].InStart?
       case Post => s.starts[i].Holding? && |s.chan.queue| < c.N()
       case Drop => s.starts[i].Holding? && s.shutdownDone
       case Exit => s.starts[i].Posted?
  }

  function StartMove(st: StartStatus, act: StartStep): StartStatus {
    match act
    case Enter => InStart
    case Leave(call) => Holding(SafeCall(call))
    case Post => if st.Holding? then Posted(st.err, true) else st
    case Drop => if st.Holding? then Posted(st.err, false) else st
    case Exit => if st.Posted? then Exited(st.err, st.delivered) else st
  }

  function StartApply(c: Config, s: State, i: nat, act: StartStep): State
    requires StartReady(c, s, i, act)
  {
    var s' := s.(starts := s.starts[i := StartMove(s.starts[i], act)]);
    if act.Post? then
      var res := StartResult(i, s.starts[i].err);
      s'.(chan := s.chan.(queue := s.chan.queue + [res], sends := s.chan.sends + [res]))
    else s'
  }

  predicate DrainReady(s: State, d: DrainStep) {
    match d
    case Receive => s.chan.drainer.Selecting? && s.chan.queue != []
    case Handle => s.chan.drainer.Handling?
    case Quit => s.chan.drainer.Selecting? && s.shutdownDone
  }

  function DrainApply(s: State, d: DrainStep): State
    requires DrainReady(s, d)
  {
    var x := s.chan;
    match d
    case Receive => s.(chan := x.(queue := x.queue[1..], drainer := Handling(x.queue[0]), received := x.received + 1))
    case Handle =>
      var err := x.drainer.res.err;
      s.(chan := x.(drainer := Selecting),
         ctx := if err.Nil? then s.ctx else SetTrigger(s.ctx, Wrap(err), FromStart(x.received), s.now))
    case Quit => s.(chan := x.(drainer := Gone))
  }

  // ---------- the whole system ----------

  /** When each step other than Tick is possible. */
  predicate Ready(c: Config, s: State, a: Action) {
    match a
    case Run(step) => RunReady(c, s, step)
    case Start(i, act) => StartReady(c, s, i, act)
    case Drain(d) => DrainReady(s, d)
    case StopReturn(i, _) => i < |s.stops| && s.stops[i].InStop?
    case CloseDoneAll => s.waiter.Blocked? && AllExited(s.starts)
    case CancelParent(err) => s.ctx.parent.Nil? && !err.Nil?
    case Propagate =>
      !s.ctx.parent.Nil? && !s.ctx.cancelled && !s.run.pc.InitNext? && !s.run.pc.InitCall? && !s.run.pc.Done?
    case Tick => false
  }

  /** No step of the program itself is possible: everybody waits for a component, the caller or a timer. */
  ghost predicate Quiescent(c: Config, s: State) {
    forall a: Action | Urgent(a) :: !Ready(c, s, a)
  }

  /** Time passes only when the program has nothing to do. */
  ghost predicate Enabled(c: Config, s: State, a: Action) {
    if a.Tick? then Quiescent(c, s) else Ready(c, s, a)
  }

  function Apply(c: Config, s: State, a: Action): State
    requires a.Tick? || Ready(c, s, a)
  {
    match a
    case Run(step) => RunApply(c, s, step)
    case Start(i, act) => StartApply(c, s, i, act)
    case Drain(d) => DrainApply(s, d)
    case StopReturn(i, call) => s.(stops := s.stops[i := Stopped(SafeCall(call))])
    case CloseDoneAll => s.(waiter := Closed)
    case CancelParent(err) => s.(ctx := s.ctx.(parent := err))
    case Propagate => s.(ctx := Cancel(s.ctx, s.now))
    case Tick => s.(now := s.now + 1)
  }

  datatype Option<T> = None | Some(value: T)

  /** One more step, if it is possible. */
  ghost function Extend(c: Config, r: Option<State>, a: Action): Option<State> {
    match r
    case None => None
    case Some(s) => if Enabled(c, s, a) then Some(Apply(c, s, a)) else None
  }

  /** The state that a schedule leads to from `s0`, if each of its steps is possible when its turn comes. */
  ghost function Exec(c: Config, s0: State, acts: seq<Action>): Option<State> {
    if acts == [] then Some(s0)
    else Extend(c, Exec(c, s0, acts[..|acts| - 1]), acts[|acts| - 1])
  }

  /** `s` is reached by some schedule of one call of Run. */
  ghost predicate Reachable(c: Config, s: State) {
    exists acts: seq<Action> :: Exec(c, Initial(c), acts) == Some(s)
  }
}
