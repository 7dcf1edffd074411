/** One inductive invariant of the engine, in parts. */
module Invariant {
  import opened GoErrors
  import opened Lifecycle

  // ---------- stages of Run ----------

  predicate Initialising(r: Driver) {
    r.pc.InitNext? || r.pc.InitCall? || r.exit.InitAborted?
  }

  /** Before the drain goroutine exists. */
  predicate Early(r: Driver) {
    Initialising(r) || r.pc.Launching?
  }

  /** After the Stop loop. */
  predicate PastStops(r: Driver) {
    r.pc.DrainWait? || r.pc.Closing? || r.pc.Joining? || r.exit.Completed?
  }

  /** From the start of the Stop loop on. */
  predicate Winding(r: Driver) {
    r.pc.Stopping? || r.pc.StopWait? || PastStops(r)
  }

  function LaunchCount(n: nat, r: Driver): nat {
    if r.pc.Launching? then r.pc.i else if Initialising(r) then 0 else n
  }

  /** How many turns of the Stop loop are over. */
  function EndedCount(n: nat, r: Driver): nat {
    if r.pc.Stopping? || r.pc.StopWait? then r.pc.k else if PastStops(r) then n else 0
  }

  function CalledCount(n: nat, r: Driver): nat {
    if r.pc.StopWait? then r.pc.k + 1 else EndedCount(n, r)
  }

  // ---------- the locals of Run ----------

  predicate Bounds(c: Config, r: Driver) {
    && (r.pc.InitNext? ==> r.pc.i <= c.N())
    && (r.pc.InitCall? ==> r.pc.i < c.N() && c.hasInit[r.pc.i])
    && (r.pc.Launching? ==> r.pc.i <= c.N())
    && (r.pc.Stopping? ==> r.pc.k <= c.N())
    && (r.pc.StopWait? ==> r.pc.k < c.N())
    && (r.pc.Done? <==> !r.exit.Running?)
    && (r.exit.InitAborted? ==> r.exit.i < c.N() && c.hasInit[r.exit.i] && !r.exit.err.Nil?)
    && (r.drainVerdict.Undecided? <==> !r.pc.Closing? && !r.pc.Joining? && !r.exit.Completed?)
    && |r.records| == EndedCount(c.N(), r)
  }

  /** What the Stop loop adds to the result for one item. */
  function Entry(v: Verdict): seq<Error> {
    match v
    case StopOk => []
    case StopFailed(e) => [Wrap(e)]
    case StopExpired => [Wrap(STOP_TIMEOUT)]
  }

  function Entries(records: seq<StopRecord>): seq<Error> {
    if records == [] then []
    else Entries(records[..|records| - 1]) + Entry(records[|records| - 1].verdict)
  }

  function DrainEntry(v: DrainVerdict): seq<Error> {
    if v.Expired? then [Wrap(STOP_TIMEOUT)] else []
  }

  function InitEvents(hasInit: seq<bool>, k: nat): seq<Event>
    requires k <= |hasInit|
  {
    if k == 0 then [] else InitEvents(hasInit, k - 1) + (if hasInit[k - 1] then [EvInit(k - 1)] else [])
  }

  function LaunchEvents(k: nat): seq<Event> {
    if k == 0 then [] else LaunchEvents(k - 1) + [EvLaunch(k - 1)]
  }

  /** Called and ended, strictly downwards from item n - 1. */
  function StopEvents(n: nat, records: seq<StopRecord>): seq<Event>
    requires |records| <= n
  {
    if records == [] then []
    else
      var i := n - |records|;
      StopEvents(n, records[..|records| - 1]) + [EvStop(i), EvStopEnd(i, records[|records| - 1].verdict)]
  }

  /** Everything the goroutine of Run has done when it is where it is. */
  function Expected(c: Config, r: Driver): seq<Event>
    requires Bounds(c, r)
  {
    if r.pc.InitNext? then InitEvents(c.hasInit, r.pc.i)
    else if r.pc.InitCall? then InitEvents(c.hasInit, r.pc.i + 1)
    else if r.exit.InitAborted? then InitEvents(c.hasInit, r.exit.i + 1)
    else
      InitEvents(c.hasInit, c.N()) + LaunchEvents(LaunchCount(c.N(), r)) + StopEvents(c.N(), r.records)
      + (if r.pc.StopWait? then [EvStop(c.N() - 1 - r.pc.k)] else [])
  }

  ghost predicate Local(c: Config, r: Driver) {
    && Bounds(c, r)
    && r.stopErrs == Entries(r.records) + DrainEntry(r.drainVerdict)
    && r.log == Expected(c, r)
  }

  // ---------- Run and the other goroutines ----------

  ghost predicate Shape(c: Config, s: State) {
    && |s.starts| == |s.stops| == |s.running| == c.N()
    && (s.chan.drainer.Unspawned? <==> Early(s.run))
    && (s.chan.drainer.Gone? ==> s.shutdownDone)
    && (s.run.exit.Completed? ==> s.chan.drainer.Gone?)
    && (s.waiter.NoWaiter? <==> !PastStops(s.run))
    && (s.shutdownDone <==> s.run.pc.Joining? || s.run.exit.Completed?)
    && (Initialising(s.run) ==> !s.ctx.cancelled)
    && (!Early(s.run) && !s.run.pc.Waiting? ==> s.ctx.cancelled)
  }

  /** An item is marked running, and its goroutine exists, once Run has launched it. */
  ghost predicate Launches(c: Config, r: Driver, starts: seq<StartStatus>, running: seq<bool>)
    requires |starts| == |running|
  {
    && (forall i | 0 <= i < |running| :: running[i] <==> i < LaunchCount(c.N(), r))
    && (forall i | 0 <= i < |starts| :: starts[i].Unlaunched? <==> LaunchCount(c.N(), r) <= i)
  }

  predicate Delivered(st: StartStatus) {
    (st.Posted? || st.Exited?) && st.delivered
  }

  predicate Dropped(st: StartStatus) {
    (st.Posted? || st.Exited?) && !st.delivered
  }

  /** How many Start goroutines have had their result accepted by the channel. */
  function Deliveries(starts: seq<StartStatus>): (k: nat)
    ensures k <= |starts|
  {
    if starts == [] then 0 else Deliveries(starts[..|starts| - 1]) + (if Delivered(starts[|starts| - 1]) then 1 else 0)
  }

  ghost predicate Channel(x: Chan) {
    && x.received <= |x.sends|
    && x.queue == x.sends[x.received..]
    && (x.drainer.Handling? ==> x.received > 0 && x.drainer.res == x.sends[x.received - 1])
    && (x.drainer.Unspawned? ==> x.received == 0)
  }

  /** Each send on the channel is the result of the goroutine it names. */
  ghost predicate Results(starts: seq<StartStatus>, sends: seq<StartResult>) {
    forall k | 0 <= k < |sends| ::
      && sends[k].idx < |starts|
      && Delivered(starts[sends[k].idx])
      && starts[sends[k].idx].err == sends[k].err
  }

  ghost predicate Senders(starts: seq<StartStatus>, sends: seq<StartResult>, shutdownDone: bool) {
    && |sends| == Deliveries(starts)
    && Results(starts, sends)
    && (forall i | 0 <= i < |starts| :: Dropped(starts[i]) ==> shutdownDone)
  }

  /** Results whose handling is over. */
  function Handled(x: Chan): int {
    if x.drainer.Handling? then x.received - 1 else x.received
  }

  /** The k-th result (from 1) is the first one on the channel that carries an error. */
  ghost predicate FirstFailure(sends: seq<StartResult>, k: nat) {
    && 0 < k <= |sends|
    && !sends[k - 1].err.Nil?
    && forall j | 0 <= j < k - 1 :: sends[j].err.Nil?
  }

  /** The trigger is what it says it is. */
  ghost predicate Trigger(r: Driver, x: Chan, y: Ctx) {
    && (y.trigger.Nil? <==> y.origin.NoTrigger?)
    && (y.cancelled ==> !y.trigger.Nil? || !y.parent.Nil?)
    && (!y.trigger.Nil? ==> y.cancelled)
    && (r.pc.HaveParentErr? ==> r.pc.perr == y.parent && !y.parent.Nil?)
    && (Winding(r) ==> !y.trigger.Nil?)
    && (y.origin.FromParent? ==> y.trigger == y.parent)
    && (y.origin.FromStart? ==>
         && FirstFailure(x.sends, y.origin.k)
         && y.origin.k <= x.received
         && y.trigger == Wrap(x.sends[y.origin.k - 1].err))
    && (y.origin.NoTrigger? ==> forall j | 0 <= j < Handled(x) && j < |x.sends| :: x.sends[j].err.Nil?)
  }

  /** The verdict agrees with what the Stop goroutine did. */
  predicate Justified(v: Verdict, st: StopStatus) {
    match v
    case StopOk => st == Stopped(Nil)
    case StopFailed(e) => !e.Nil? && st == Stopped(e)
    case StopExpired => true
  }

  ghost predicate StopCalls(c: Config, r: Driver, stops: seq<StopStatus>)
    requires |stops| == c.N() && |r.records| <= c.N()
  {
    && (forall i | 0 <= i < c.N() :: stops[i].Uncalled? <==> i < c.N() - CalledCount(c.N(), r))
    && (forall k | 0 <= k < |r.records| :: Justified(r.records[k].verdict, stops[c.N() - 1 - k]))
  }

  ghost predicate Waits(r: Driver, waiter: Waiter, starts: seq<StartStatus>) {
    && (r.drainVerdict.Joined? ==> waiter.Closed?)
    && (waiter.Closed? ==> AllExited(starts))
  }

  /** The latest time at which k waits of `grace` each, begun at `from`, can be over. */
  function Limit(from: nat, k: nat, grace: nat): nat {
    if k == 0 then from else Limit(from, k - 1, grace) + grace
  }

  /** A Stop is given up exactly at its deadline, and never waited for after it. */
  predicate InTime(grace: nat, rec: StopRecord) {
    && rec.began <= rec.ended <= rec.began + grace
    && (rec.verdict.StopExpired? ==> rec.ended == rec.began + grace)
  }

  ghost predicate Timing(c: Config, r: Driver, y: Ctx, now: nat) {
    && (y.cancelled ==> y.cancelledAt <= now)
    && (y.cancelled && !Winding(r) ==> now == y.cancelledAt)
    && (r.pc.Stopping? ==> now <= Limit(y.cancelledAt, r.pc.k, c.Grace()))
    && (r.pc.StopWait? ==>
         && r.began <= now <= r.timer == r.began + c.Grace()
         && r.timer <= Limit(y.cancelledAt, r.pc.k + 1, c.Grace()))
    && (r.pc.DrainWait? ==> now <= r.timer <= Limit(y.cancelledAt, c.N() + 1, c.Grace()))
    && (r.pc.Closing? || r.pc.Joining? ==> now <= Limit(y.cancelledAt, c.N() + 1, c.Grace()))
    && (r.exit.Completed? ==> r.returnedAt <= Limit(y.cancelledAt, c.N() + 1, c.Grace()))
    && (forall k | 0 <= k < |r.records| :: InTime(c.Grace(), r.records[k]))
  }

  ghost predicate Outcome(r: Driver, trigger: Error) {
    && (r.exit.InitAborted? ==> r.result == Wrap(r.exit.err))
    && (r.exit.Completed? ==> r.result == Multi([trigger] + r.stopErrs))
  }

  ghost predicate Inv(c: Config, s: State) {
    && Local(c, s.run)
    && Shape(c, s)
    && Launches(c, s.run, s.starts, s.running)
    && Channel(s.chan)
    && Senders(s.starts, s.chan.sends, s.shutdownDone)
    && Trigger(s.run, s.chan, s.ctx)
    && StopCalls(c, s.run, s.stops)
    && Waits(s.run, s.waiter, s.starts)
    && Timing(c, s.run, s.ctx, s.now)
    && Outcome(s.run, s.ctx.trigger)
  }

  // ---------- counting ----------

  lemma {:induction false} DeliveriesUpdate(starts: seq<StartStatus>, i: nat, st: StartStatus)
    requires i < |starts|
    ensures Deliveries(starts[i := st]) ==
            Deliveries(starts) - (if Delivered(starts[i]) then 1 else 0) + (if Delivered(st) then 1 else 0)
  {
    var last := |starts| - 1;
    if i == last {
      assert starts[i := st][..last] == starts[..last];
    } else {
      DeliveriesUpdate(starts[..last], i, st);
      assert starts[i := st][..last] == starts[..last][i := st];
    }
  }

  lemma {:induction false} NoDeliveries(starts: seq<StartStatus>)
    requires forall i | 0 <= i < |starts| :: starts[i].Unlaunched?
    ensures Deliveries(starts) == 0
  {
    if starts != [] { NoDeliveries(starts[..|starts| - 1]); }
  }

  lemma InitialInv(c: Config)
    ensures Inv(c, Initial(c))
  {
    NoDeliveries(Initial(c).starts);
  }

  // ---------- steps of Run ----------

  /** Run has marked every item running before it stops any, so the Stop loop passes over none. */
  lemma NoSkip(c: Config, s: State)
    requires Bounds(c, s.run) && Shape(c, s) && Launches(c, s.run, s.starts, s.running)
    ensures !RunReady(c, s, SkipStop)
  {
  }

  lemma BoundsStep(c: Config, s: State, step: RunStep)
    requires Bounds(c, s.run) && RunReady(c, s, step) && !step.SkipStop?
    ensures Bounds(c, RunLocal(c, s, step))
  {
  }

  lemma EntriesStep(c: Config, s: State, step: RunStep)
    requires Local(c, s.run) && RunReady(c, s, step) && !step.SkipStop?
    ensures var r := RunLocal(c, s, step); r.stopErrs == Entries(r.records) + DrainEntry(r.drainVerdict)
  {
    var r, r' := s.run, RunLocal(c, s, step);
    if r'.records != r.records {
      assert r'.records[..|r'.records| - 1] == r.records;
    }
  }

  /** Steps up to the launch of the last item. */
  predicate Boot(step: RunStep) {
    step.SkipInit? || step.CallInit? || step.InitReturn? || step.CreateContext? || step.Launch?
  }

  lemma BootLog(c: Config, s: State, step: RunStep)
    requires Local(c, s.run) && RunReady(c, s, step) && Boot(step)
    requires Bounds(c, RunLocal(c, s, step))
    ensures RunLocal(c, s, step).log == Expected(c, RunLocal(c, s, step))
  {
  }

  lemma LaterLog(c: Config, s: State, step: RunStep)
    requires Local(c, s.run) && RunReady(c, s, step) && !Boot(step) && !step.StopFinished? && !step.StopDeadline?
    requires Bounds(c, RunLocal(c, s, step))
    ensures RunLocal(c, s, step).log == Expected(c, RunLocal(c, s, step))
  {
  }

  lemma EndStopLog(c: Config, s: State, step: RunStep)
    requires Local(c, s.run) && RunReady(c, s, step) && (step.StopFinished? || step.StopDeadline?)
    requires Bounds(c, RunLocal(c, s, step))
    ensures RunLocal(c, s, step).log == Expected(c, RunLocal(c, s, step))
  {
    var r, r' := s.run, RunLocal(c, s, step);
    assert r'.records[..|r'.records| - 1] == r.records;
  }

  lemma LocalStep(c: Config, s: State, step: RunStep)
    requires Local(c, s.run) && RunReady(c, s, step) && !step.SkipStop?
    ensures Local(c, RunLocal(c, s, step))
  {
    BoundsStep(c, s, step);
    EntriesStep(c, s, step);
    if Boot(step) { BootLog(c, s, step); }
    else if step.StopFinished? || step.StopDeadline? { EndStopLog(c, s, step); }
    else { LaterLog(c, s, step); }
  }

  lemma RunShape(c: Config, s: State, step: RunStep)
    requires Bounds(c, s.run) && Shape(c, s) && RunReady(c, s, step)
    ensures Shape(c, RunApply(c, s, step))
  {
  }

  lemma RunLaunches(c: Config, s: State, step: RunStep)
    requires Bounds(c, s.run) && Shape(c, s) && Launches(c, s.run, s.starts, s.running) && RunReady(c, s, step)
    ensures var s' := RunApply(c, s, step); |s'.starts| == |s'.running| && Launches(c, s'.run, s'.starts, s'.running)
  {
  }

  lemma RunChannel(c: Config, s: State, step: RunStep)
    requires Shape(c, s) && Launches(c, s.run, s.starts, s.running) && RunReady(c, s, step)
    requires Channel(s.chan) && Senders(s.starts, s.chan.sends, s.shutdownDone)
    ensures var s' := RunApply(c, s, step); Channel(s'.chan) && Senders(s'.starts, s'.chan.sends, s'.shutdownDone)
  {
    if step.Launch? { DeliveriesUpdate(s.starts, s.run.pc.i, Launched); }
  }

  lemma RunTrigger(c: Config, s: State, step: RunStep)
    requires Bounds(c, s.run) && Shape(c, s) && RunReady(c, s, step)
    requires Channel(s.chan) && Trigger(s.run, s.chan, s.ctx)
    ensures var s' := RunApply(c, s, step); Trigger(s'.run, s'.chan, s'.ctx)
  {
  }

  lemma RunStops(c: Config, s: State, step: RunStep)
    requires Bounds(c, s.run) && |s.stops| == c.N() && StopCalls(c, s.run, s.stops)
    requires RunReady(c, s, step) && !step.SkipStop? && Bounds(c, RunLocal(c, s, step))
    ensures var s' := RunApply(c, s, step);
      |s'.stops| == c.N() && |s'.run.records| <= c.N() && StopCalls(c, s'.run, s'.stops)
  {
    var r, r' := s.run, RunLocal(c, s, step);
    if r'.records == r.records && !step.CallStop? {
      assert RunApply(c, s, step).stops == s.stops;
    }
  }

  lemma RunWaits(c: Config, s: State, step: RunStep)
    requires Bounds(c, s.run) && Shape(c, s) && RunReady(c, s, step)
    requires Waits(s.run, s.waiter, s.starts)
    ensures var s' := RunApply(c, s, step); Waits(s'.run, s'.waiter, s'.starts)
  {
  }

  lemma BootTiming(c: Config, s: State, step: RunStep)
    requires Bounds(c, s.run) && Shape(c, s) && RunReady(c, s, step) && Boot(step)
    requires Timing(c, s.run, s.ctx, s.now)
    ensures var s' := RunApply(c, s, step); Timing(c, s'.run, s'.ctx, s'.now)
  {
  }

  lemma LaterTiming(c: Config, s: State, step: RunStep)
    requires Bounds(c, s.run) && Shape(c, s) && RunReady(c, s, step) && !Boot(step) && !step.SkipStop?
    requires Timing(c, s.run, s.ctx, s.now)
    ensures var s' := RunApply(c, s, step); Timing(c, s'.run, s'.ctx, s'.now)
  {
  }

  lemma RunTiming(c: Config, s: State, step: RunStep)
    requires Bounds(c, s.run) && Shape(c, s) && RunReady(c, s, step) && !step.SkipStop?
    requires Timing(c, s.run, s.ctx, s.now)
    ensures var s' := RunApply(c, s, step); Timing(c, s'.run, s'.ctx, s'.now)
  {
    if Boot(step) { BootTiming(c, s, step); } else { LaterTiming(c, s, step); }
  }

  lemma {:induction false} EntriesNonNil(records: seq<StopRecord>)
    ensures Nil !in Entries(records)
  {
    if records != [] { EntriesNonNil(records[..|records| - 1]); }
  }

  lemma ReturnOutcome(c: Config, s: State)
    requires Local(c, s.run) && RunReady(c, s, Return) && !s.ctx.trigger.Nil?
    ensures RunLocal(c, s, Return).result == Multi([s.ctx.trigger] + s.run.stopErrs)
  {
    EntriesNonNil(s.run.records);
    NonNilOfClean([s.ctx.trigger] + s.run.stopErrs);
  }

  lemma RunOutcome(c: Config, s: State, step: RunStep)
    requires Local(c, s.run) && Outcome(s.run, s.ctx.trigger) && RunReady(c, s, step)
    requires step.Return? ==> !s.ctx.trigger.Nil?
    ensures var s' := RunApply(c, s, step); Outcome(s'.run, s'.ctx.trigger)
  {
    if step.Return? { ReturnOutcome(c, s); }
  }

  lemma RunKeeps(c: Config, s: State, step: RunStep)
    requires Inv(c, s) && RunReady(c, s, step)
    ensures Inv(c, RunApply(c, s, step))
  {
    NoSkip(c, s);
    LocalStep(c, s, step);
    RunShape(c, s, step);
    RunLaunches(c, s, step);
    RunChannel(c, s, step);
    RunTrigger(c, s, step);
    BoundsStep(c, s, step);
    RunStops(c, s, step);
    RunWaits(c, s, step);
    RunTiming(c, s, step);
    RunOutcome(c, s, step);
  }

  // ---------- steps of the other goroutines ----------

  lemma StartSenders(c: Config, s: State, i: nat, act: StartStep)
    requires Senders(s.starts, s.chan.sends, s.shutdownDone) && StartReady(c, s, i, act)
    ensures var s' := StartApply(c, s, i, act); Senders(s'.starts, s'.chan.sends, s'.shutdownDone)
  {
    DeliveriesUpdate(s.starts, i, StartMove(s.starts[i], act));
  }

  lemma StartOthers(c: Config, s: State, i: nat, act: StartStep)
    requires Shape(c, s) && StartReady(c, s, i, act)
    requires Launches(c, s.run, s.starts, s.running) && Waits(s.run, s.waiter, s.starts)
    ensures var s' := StartApply(c, s, i, act);
      && Shape(c, s') && Launches(c, s'.run, s'.starts, s'.running) && Waits(s'.run, s'.waiter, s'.starts)
  {
  }

  lemma StartTrigger(c: Config, s: State, i: nat, act: StartStep)
    requires StartReady(c, s, i, act) && Channel(s.chan) && Trigger(s.run, s.chan, s.ctx)
    ensures var s' := StartApply(c, s, i, act); Channel(s'.chan) && Trigger(s'.run, s'.chan, s'.ctx)
  {
  }

  lemma StartKeeps(c: Config, s: State, i: nat, act: StartStep)
    requires Inv(c, s) && StartReady(c, s, i, act)
    ensures Inv(c, StartApply(c, s, i, act))
  {
    StartSenders(c, s, i, act);
    StartOthers(c, s, i, act);
    StartTrigger(c, s, i, act);
  }

  lemma DrainTrigger(s: State, d: DrainStep)
    requires DrainReady(s, d) && Channel(s.chan) && Trigger(s.run, s.chan, s.ctx)
    ensures var s' := DrainApply(s, d); Channel(s'.chan) && Trigger(s'.run, s'.chan, s'.ctx)
  {
  }

  lemma DrainKeeps(c: Config, s: State, d: DrainStep)
    requires Inv(c, s) && DrainReady(s, d)
    ensures Inv(c, DrainApply(s, d))
  {
    var s' := DrainApply(s, d);
    DrainTrigger(s, d);
    assert Shape(c, s');
    assert Timing(c, s'.run, s'.ctx, s'.now);
    assert Winding(s.run) ==> s'.ctx.trigger == s.ctx.trigger;
  }

  /** Run is inside a user's Init, waits for a cancellation that nothing has caused yet, waits for a
      timer that has not fired, or is over. */
  predicate AtRest(s: State) {
    || s.run.pc.InitCall?
    || (s.run.pc.Waiting? && !s.ctx.cancelled && s.ctx.parent.Nil?)
    || ((s.run.pc.StopWait? || s.run.pc.DrainWait?) && s.now < s.run.timer)
    || s.run.pc.Done?
  }

  /** Outside those places, a step by which the program goes on without anybody's help. */
  function Next(c: Config, s: State): Action
    requires Bounds(c, s.run)
  {
    match s.run.pc
    case InitNext(i) => Run(if i == c.N() then CreateContext else if c.hasInit[i] then CallInit else SkipInit)
    case Launching(i) => Run(if i == c.N() then SpawnDrain else Launch)
    case Waiting => if s.ctx.cancelled then Run(Wake) else Propagate
    case Woken => Run(ReadParent)
    case HaveParentErr(_) => Run(SetParentTrigger)
    case Stopping(k) => Run(if k == c.N() then EnterDrain else CallStop)
    case StopWait(_) => Run(StopDeadline)
    case DrainWait => Run(DrainDeadline)
    case Closing => Run(CloseShutdown)
    case Joining =>
      if s.chan.drainer.Gone? then Run(Return) else if s.chan.drainer.Handling? then Drain(Handle) else Drain(Quit)
    case _ => Tick
  }

  lemma NextIsReady(c: Config, s: State)
    requires Bounds(c, s.run) && Shape(c, s) && Launches(c, s.run, s.starts, s.running) && !AtRest(s)
    ensures Urgent(Next(c, s)) && Ready(c, s, Next(c, s))
  {
  }

  lemma TickTiming(c: Config, s: State)
    requires Bounds(c, s.run) && Shape(c, s) && Launches(c, s.run, s.starts, s.running) && Quiescent(c, s)
    requires Timing(c, s.run, s.ctx, s.now)
    ensures Timing(c, s.run, s.ctx, s.now + 1)
  {
    if !AtRest(s) { NextIsReady(c, s); }
    assert AtRest(s);
  }

  lemma StopReturnStops(c: Config, r: Driver, stops: seq<StopStatus>, i: nat, st: StopStatus)
    requires |stops| == c.N() && |r.records| <= c.N() && StopCalls(c, r, stops)
    requires i < |stops| && stops[i].InStop? && st.Stopped?
    ensures StopCalls(c, r, stops[i := st])
  {
  }

  lemma StopReturnKeeps(c: Config, s: State, i: nat, call: Call)
    requires Inv(c, s) && Ready(c, s, StopReturn(i, call))
    ensures Inv(c, Apply(c, s, StopReturn(i, call)))
  {
    StopReturnStops(c, s.run, s.stops, i, Stopped(SafeCall(call)));
    assert Shape(c, Apply(c, s, StopReturn(i, call)));
  }

  lemma OtherKeeps(c: Config, s: State, a: Action)
    requires Inv(c, s) && Enabled(c, s, a)
    requires a.CloseDoneAll? || a.CancelParent? || a.Propagate? || a.Tick?
    ensures Inv(c, Apply(c, s, a))
  {
    if a.Tick? { TickTiming(c, s); }
  }

  /** Every step of every goroutine, of the environment and of the clock keeps the invariant. */
  lemma StepKeeps(c: Config, s: State, a: Action)
    requires Inv(c, s) && Enabled(c, s, a)
    ensures Inv(c, Apply(c, s, a))
  {
    match a
    case Run(step) => RunKeeps(c, s, step);
    case Start(i, act) => StartKeeps(c, s, i, act);
    case Drain(d) => DrainKeeps(c, s, d);
    case StopReturn(i, call) => StopReturnKeeps(c, s, i, call);
    case _ => OtherKeeps(c, s, a);
  }

  lemma {:induction false} ExecKeeps(c: Config, s0: State, acts: seq<Action>)
    requires Inv(c, s0)
    ensures Exec(c, s0, acts).Some? ==> Inv(c, Exec(c, s0, acts).value)
  {
    if acts != [] {
      var last := |acts| - 1;
      ExecKeeps(c, s0, acts[..last]);
      if Exec(c, s0, acts).Some? { StepKeeps(c, Exec(c, s0, acts[..last]).value, acts[last]); }
    }
  }

  /** The invariant holds in every state of every run. */
  lemma Invariance(c: Config, s: State)
    requires Reachable(c, s)
    ensures Inv(c, s)
  {
    var acts :| Exec(c, Initial(c), acts) == Some(s);
    InitialInv(c);
    ExecKeeps(c, Initial(c), acts);
  }
}
