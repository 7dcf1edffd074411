/** What every run of the engine guarantees. */
module Engine {
  import opened GoErrors
  import opened Lifecycle
  import opened Invariant

  // ---------- runs ----------

  lemma {:induction false} ExecSplit(c: Config, s: State, first: seq<Action>, second: seq<Action>)
    requires Exec(c, s, first).Some?
    ensures Exec(c, s, first + second) == Exec(c, Exec(c, s, first).value, second)
  {
    if second == [] {
      assert first + second == first;
    } else {
      var last, whole := |second| - 1, first + second;
      ExecSplit(c, s, first, second[..last]);
      assert whole[..|whole| - 1] == first + second[..last] && whole[|whole| - 1] == second[last];
      var mid := Exec(c, s, first).value;
      assert Exec(c, s, whole) == Extend(c, Exec(c, s, whole[..|whole| - 1]), second[last]);
      assert Exec(c, mid, second) == Extend(c, Exec(c, mid, second[..last]), second[last]);
    }
  }

  lemma InitialReachable(c: Config)
    ensures Reachable(c, Initial(c))
  {
    assert Exec(c, Initial(c), []) == Some(Initial(c));
  }

  lemma StepReachable(c: Config, s: State, a: Action)
    requires Reachable(c, s) && Enabled(c, s, a)
    ensures Reachable(c, Apply(c, s, a))
  {
    var acts :| Exec(c, Initial(c), acts) == Some(s);
    assert (acts + [a])[..|acts|] == acts;
    assert Exec(c, Initial(c), acts + [a]) == Some(Apply(c, s, a));
  }

  /** A call that returned is known by the very error it returned, a panic by an error of its own. */
  predicate CameBack(call: Call, err: Error) {
    match call
    case Returned(e) => err == e
    case Panicked => err == Panic
  }

  predicate LeftBody(st: StartStatus) {
    st.Holding? || st.Posted? || st.Exited?
  }

  /** What a step of the engine can do to one Start goroutine. */
  lemma OneStart(c: Config, s: State, e: Action, f: nat)
    requires Enabled(c, s, e) && f < |s.starts| == |s.running| && Launches(c, s.run, s.starts, s.running)
    ensures |Apply(c, s, e).starts| == |s.starts|
    ensures var st, st' := s.starts[f], Apply(c, s, e).starts[f];
      || (st' == st && !(e.Start? && e.i == f))
      || (st.Unlaunched? && st'.Launched? && !e.Start?)
      || (e.Start? && e.i == f && StartReady(c, s, f, e.act) && st' == StartMove(st, e.act))
  {
  }

  /** What a step of the engine can do to one Stop goroutine. */
  lemma OneStop(c: Config, s: State, e: Action, f: nat)
    requires Enabled(c, s, e) && f < |s.stops| == c.N()
    ensures |Apply(c, s, e).stops| == |s.stops|
    ensures var st, st' := s.stops[f], Apply(c, s, e).stops[f];
      || (st' == st && !(e.StopReturn? && e.i == f) && !(e == Run(CallStop) && c.N() - 1 - s.run.pc.k == f))
      || (e.StopReturn? && e.i == f && st.InStop? && st'.Stopped? && CameBack(e.call, st'.err))
      || (e == Run(CallStop) && c.N() - 1 - s.run.pc.k == f && st'.InStop?)
  {
  }

  // ---------- what the components and the caller said ----------

  /** The state still says what came back from a component, or what the caller did, in this step. */
  predicate Remembers(s: State, a: Action) {
    match a
    case Run(InitReturn(call)) =>
      call == Returned(Nil) || (s.run.exit.InitAborted? && CameBack(call, s.run.exit.err))
    case Start(i, Leave(call)) => i < |s.starts| && LeftBody(s.starts[i]) && CameBack(call, s.starts[i].err)
    case StopReturn(i, call) => i < |s.stops| && s.stops[i].Stopped? && CameBack(call, s.stops[i].err)
    case CancelParent(err) => s.ctx.parent == err && !err.Nil?
    case _ => true
  }

  lemma RunRemembers(c: Config, s: State, step: RunStep, a: Action)
    requires Bounds(c, s.run) && RunReady(c, s, step) && Remembers(s, a)
    requires step.CallStop? ==> s.stops[c.N() - 1 - s.run.pc.k].Uncalled?
    requires step.Launch? ==> s.starts[s.run.pc.i].Unlaunched?
    ensures Remembers(RunApply(c, s, step), a)
  {
  }

  /** Run launches nothing and stops nothing twice. */
  lemma FirstTime(c: Config, s: State, step: RunStep)
    requires Inv(c, s) && RunReady(c, s, step)
    ensures step.CallStop? ==> s.stops[c.N() - 1 - s.run.pc.k].Uncalled?
    ensures step.Launch? ==> s.starts[s.run.pc.i].Unlaunched?
  {
  }

  lemma OtherRemembers(c: Config, s: State, step: Action, a: Action)
    requires Enabled(c, s, step) && !step.Run? && Remembers(s, a)
    ensures Remembers(Apply(c, s, step), a)
  {
  }

  lemma StepRemembers(c: Config, s: State, step: Action, a: Action)
    requires Inv(c, s) && Enabled(c, s, step) && (Remembers(s, a) || step == a)
    ensures Remembers(Apply(c, s, step), a)
  {
    if Remembers(s, a) {
      if step.Run? {
        FirstTime(c, s, step.step);
        RunRemembers(c, s, step.step, a);
      } else { OtherRemembers(c, s, step, a); }
    }
  }

  lemma LastStep(c: Config, acts: seq<Action>) returns (mid: State)
    requires acts != [] && Exec(c, Initial(c), acts).Some?
    ensures Exec(c, Initial(c), acts[..|acts| - 1]) == Some(mid) && Inv(c, mid)
    ensures Enabled(c, mid, acts[|acts| - 1])
    ensures Exec(c, Initial(c), acts) == Some(Apply(c, mid, acts[|acts| - 1]))
  {
    InitialInv(c);
    ExecKeeps(c, Initial(c), acts[..|acts| - 1]);
    mid := Exec(c, Initial(c), acts[..|acts| - 1]).value;
  }

  /** Nothing that a component returned or the caller did is ever changed by the rest of the run. */
  lemma {:induction false} Remembered(c: Config, acts: seq<Action>, a: Action)
    requires Exec(c, Initial(c), acts).Some? && a in acts
    ensures Remembers(Exec(c, Initial(c), acts).value, a)
  {
    var mid := LastStep(c, acts);
    var front, last := acts[..|acts| - 1], acts[|acts| - 1];
    assert a in front || last == a by { assert acts == front + [last]; }
    if a in front { Remembered(c, front, a); }
    StepRemembers(c, mid, last, a);
  }

  /** And nothing is made up: each outcome in the state is one that was given, and Init gave up only if an Init failed. */
  lemma {:induction false} NothingInvented(c: Config, acts: seq<Action>)
    requires Exec(c, Initial(c), acts).Some?
    ensures var s := Exec(c, Initial(c), acts).value;
      && (forall i | 0 <= i < |s.stops| && s.stops[i].Stopped? ::
           exists call :: StopReturn(i, call) in acts && CameBack(call, s.stops[i].err))
      && (forall i | 0 <= i < |s.starts| && LeftBody(s.starts[i]) ::
           exists call :: Start(i, Leave(call)) in acts && CameBack(call, s.starts[i].err))
      && (s.run.exit.InitAborted? ==>
           exists call :: Run(InitReturn(call)) in acts && CameBack(call, s.run.exit.err))
      && (!s.ctx.parent.Nil? ==> CancelParent(s.ctx.parent) in acts)
  {
    if acts != [] {
      var last := |acts| - 1;
      var before := acts[..last];
      NothingInvented(c, before);
      assert acts == before + [acts[last]];
      var s, s' := Exec(c, Initial(c), before).value, Exec(c, Initial(c), acts).value;
      OutcomesFrom(c, s, acts[last]);
      forall i | 0 <= i < |s'.stops| && s'.stops[i].Stopped?
        ensures exists call :: StopReturn(i, call) in acts && CameBack(call, s'.stops[i].err)
      {
        if acts[last].StopReturn? && acts[last].i == i {
          assert StopReturn(i, acts[last].call) in acts;
        } else {
          var call :| StopReturn(i, call) in before && CameBack(call, s.stops[i].err);
          assert StopReturn(i, call) in acts;
        }
      }
      forall i | 0 <= i < |s'.starts| && LeftBody(s'.starts[i])
        ensures exists call :: Start(i, Leave(call)) in acts && CameBack(call, s'.starts[i].err)
      {
        StartsFrom(c, s, acts[last], i);
        if acts[last].Start? && acts[last].i == i && acts[last].act.Leave? {
          assert Start(i, Leave(acts[last].act.call)) in acts;
        } else {
          var call :| Start(i, Leave(call)) in before && CameBack(call, s.starts[i].err);
          assert Start(i, Leave(call)) in acts;
        }
      }
      if s'.run.exit.InitAborted? && !s.run.exit.InitAborted? {
        assert Run(InitReturn(acts[last].step.call)) in acts;
      }
    }
  }

  lemma OutcomesFrom(c: Config, s: State, a: Action)
    requires Enabled(c, s, a)
    ensures var s' := Apply(c, s, a);
      && (forall i | 0 <= i < |s'.stops| && s'.stops[i].Stopped? ::
            (a.StopReturn? && a.i == i && CameBack(a.call, s'.stops[i].err))
            || (i < |s.stops| && s'.stops[i] == s.stops[i]))
      && (s'.run.exit.InitAborted? ==>
            s'.run.exit == s.run.exit || (a.Run? && a.step.InitReturn? && CameBack(a.step.call, s'.run.exit.err)))
      && (s'.ctx.parent == s.ctx.parent || (a.CancelParent? && s'.ctx.parent == a.err))
  {
  }

  lemma StartsFrom(c: Config, s: State, a: Action, i: nat)
    requires Enabled(c, s, a) && i < |Apply(c, s, a).starts| && LeftBody(Apply(c, s, a).starts[i])
    ensures var st' := Apply(c, s, a).starts[i];
      || (a.Start? && a.i == i && a.act.Leave? && CameBack(a.act.call, st'.err))
      || (i < |s.starts| && LeftBody(s.starts[i]) && s.starts[i].err == st'.err)
  {
  }

  // ---------- order of the phases ----------

  lemma {:induction false} InitEventsMeaning(hasInit: seq<bool>, k: nat)
    requires k <= |hasInit|
    ensures var es := InitEvents(hasInit, k);
      && (forall p | 0 <= p < |es| :: es[p].EvInit? && es[p].i < k && hasInit[es[p].i])
      && (forall p, q | 0 <= p < q < |es| :: es[p].i < es[q].i)
      && (forall i | 0 <= i < k && hasInit[i] :: EvInit(i) in es)
  {
    if k > 0 { InitEventsMeaning(hasInit, k - 1); }
  }

  lemma {:induction false} LaunchEventsMeaning(k: nat)
    ensures |LaunchEvents(k)| == k && forall i | 0 <= i < k :: LaunchEvents(k)[i] == EvLaunch(i)
  {
    if k > 0 { LaunchEventsMeaning(k - 1); }
  }

  lemma {:induction false} StopEventsMeaning(n: nat, records: seq<StopRecord>)
    requires |records| <= n
    ensures var es := StopEvents(n, records);
      && |es| == 2 * |records|
      && forall k | 0 <= k < |records| ::
           es[2 * k] == EvStop(n - 1 - k) && es[2 * k + 1] == EvStopEnd(n - 1 - k, records[k].verdict)
  {
    if records != [] { StopEventsMeaning(n, records[..|records| - 1]); }
  }

  /** Inits are called in index order, each item that has one exactly once. */
  ghost predicate InitsUpTo(c: Config, inits: seq<Event>, k: nat)
    requires k <= c.N()
  {
    && (forall p | 0 <= p < |inits| :: inits[p].EvInit? && inits[p].i < k && c.hasInit[inits[p].i])
    && (forall p, q | 0 <= p < q < |inits| :: inits[p].i < inits[q].i)
    && (forall i | 0 <= i < k && c.hasInit[i] :: EvInit(i) in inits)
  }

  /** Launches in index order; then, strictly downwards, each Stop called and seen to its end before the next. */
  ghost predicate FullRun(n: nat, launches: seq<Event>, stops: seq<Event>, records: seq<StopRecord>) {
    && |launches| == n && |records| == n && |stops| == 2 * n
    && (forall i | 0 <= i < n :: launches[i] == EvLaunch(i))
    && (forall k | 0 <= k < n ::
         stops[2 * k] == EvStop(n - 1 - k) && stops[2 * k + 1] == EvStopEnd(n - 1 - k, records[k].verdict))
  }

  /** A failed Init is the last thing that happens: nothing was launched, nothing is stopped. */
  lemma InitFailureAborts(c: Config, s: State)
    requires Reachable(c, s) && s.run.exit.InitAborted?
    ensures s.run.exit.i < c.N() && InitsUpTo(c, s.run.log, s.run.exit.i + 1) && EvInit(s.run.exit.i) in s.run.log
    ensures forall i | 0 <= i < |s.starts| :: s.starts[i].Unlaunched?
    ensures forall i | 0 <= i < |s.stops| :: s.stops[i].Uncalled?
    ensures !s.run.exit.err.Nil? && s.run.result == Wrap(s.run.exit.err)
  {
    assert Bounds(c, s.run) && s.run.log == InitEvents(c.hasInit, s.run.exit.i + 1) && s.run.result == Wrap(s.run.exit.err)
      && (forall i | 0 <= i < |s.starts| :: s.starts[i].Unlaunched?)
      && (forall i | 0 <= i < |s.stops| :: s.stops[i].Uncalled?) by {
      Invariance(c, s);
    }
    InitsInOrder(c, s.run.exit.i + 1);
  }

  lemma InitsInOrder(c: Config, k: nat)
    requires k <= c.N()
    ensures InitsUpTo(c, InitEvents(c.hasInit, k), k)
  {
    InitEventsMeaning(c.hasInit, k);
  }

  lemma FullRunEvents(n: nat, records: seq<StopRecord>)
    requires |records| == n
    ensures FullRun(n, LaunchEvents(n), StopEvents(n, records), records)
  {
    LaunchEventsMeaning(n);
    StopEventsMeaning(n, records);
  }

  /** A call of Run that gets past Init does all Inits, then all launches, then all Stops, and nothing else. */
  lemma PhaseOrder(c: Config, s: State)
    requires Reachable(c, s) && s.run.exit.Completed?
    ensures |s.run.records| == c.N()
    ensures s.run.log == InitEvents(c.hasInit, c.N()) + LaunchEvents(c.N()) + StopEvents(c.N(), s.run.records)
    ensures InitsUpTo(c, InitEvents(c.hasInit, c.N()), c.N())
    ensures FullRun(c.N(), LaunchEvents(c.N()), StopEvents(c.N(), s.run.records), s.run.records)
  {
    Invariance(c, s);
    FullRunEvents(c.N(), s.run.records);
    InitsInOrder(c, c.N());
    assert Local(c, s.run);
  }

  lemma StopsGoDown(c: Config, r: Driver, stops: seq<StopStatus>, i: nat)
    requires Bounds(c, r) && |stops| == c.N() && |r.records| <= c.N() && StopCalls(c, r, stops)
    requires i < c.N() && !stops[i].Uncalled?
    ensures Winding(r)
    ensures c.N() - 1 - i <= |r.records|
  {
  }

  lemma StopParts(c: Config, s: State)
    requires Reachable(c, s)
    ensures |s.stops| == |s.starts| == c.N() && |s.run.records| <= c.N()
    ensures Bounds(c, s.run) && StopCalls(c, s.run, s.stops)
    ensures forall k | 0 <= k < |s.run.records| :: InTime(c.Grace(), s.run.records[k])
    ensures Winding(s.run) ==>
      !s.ctx.trigger.Nil? && s.ctx.cancelled && forall j | 0 <= j < |s.starts| :: !s.starts[j].Unlaunched?
  {
    Invariance(c, s);
  }

  /** No item is stopped before every item has been launched and internalCtx is cancelled; and by then
      every item above it has been stopped and seen to its end, by its return or at its deadline. */
  lemma StopDiscipline(c: Config, s: State, i: nat)
    requires Reachable(c, s) && i < |s.stops| && !s.stops[i].Uncalled?
    ensures s.ctx.cancelled && !s.ctx.trigger.Nil? && |s.stops| == c.N()
    ensures forall j | 0 <= j < |s.starts| :: !s.starts[j].Unlaunched?
    ensures forall j | i < j < |s.stops| ::
      && c.N() - 1 - j < |s.run.records|
      && InTime(c.Grace(), s.run.records[c.N() - 1 - j])
      && Justified(s.run.records[c.N() - 1 - j].verdict, s.stops[j])
  {
    StopParts(c, s);
    StopsGoDown(c, s.run, s.stops, i);
    forall j | i < j < |s.stops|
      ensures InTime(c.Grace(), s.run.records[c.N() - 1 - j])
      ensures Justified(s.run.records[c.N() - 1 - j].verdict, s.stops[j])
    {
      var k := c.N() - 1 - j;
      assert c.N() - 1 - k == j;
    }
  }

  // ---------- the trigger ----------

  /** From the start of the Stop loop on there is a trigger: the parent's error, or the first failing
      Start result in the order of the channel. */
  lemma TriggerOrigin(c: Config, s: State)
    requires Reachable(c, s) && Winding(s.run)
    ensures !s.ctx.trigger.Nil?
    ensures (s.ctx.origin.FromParent? && s.ctx.trigger == s.ctx.parent)
         || (s.ctx.origin.FromStart? && FirstFailure(s.chan.sends, s.ctx.origin.k)
             && s.ctx.trigger == Wrap(s.chan.sends[s.ctx.origin.k - 1].err)
             && (var r := s.chan.sends[s.ctx.origin.k - 1];
                 r.idx < |s.starts| && Delivered(s.starts[r.idx]) && s.starts[r.idx].err == r.err))
    ensures s.ctx.parent.Nil? ==> s.ctx.origin.FromStart?
  {
    Invariance(c, s);
  }

  lemma TriggerStep(c: Config, s: State, a: Action)
    requires Inv(c, s) && Enabled(c, s, a) && !s.ctx.trigger.Nil?
    ensures var s' := Apply(c, s, a); s'.ctx.trigger == s.ctx.trigger && s'.ctx.origin == s.ctx.origin
  {
  }

  /** Once written, the trigger never changes, whatever the rest of the run does. */
  lemma {:induction false} TriggerFrozen(c: Config, s: State, acts: seq<Action>)
    requires Reachable(c, s) && !s.ctx.trigger.Nil?
    ensures Exec(c, s, acts).Some? ==>
      Exec(c, s, acts).value.ctx.trigger == s.ctx.trigger && Exec(c, s, acts).value.ctx.origin == s.ctx.origin
  {
    if acts != [] {
      var last := |acts| - 1;
      TriggerFrozen(c, s, acts[..last]);
      Invariance(c, s);
      ExecKeeps(c, s, acts[..last]);
      if Exec(c, s, acts).Some? { TriggerStep(c, Exec(c, s, acts[..last]).value, acts[last]); }
    }
  }

  // ---------- the result ----------

  lemma ResultParts(c: Config, s: State)
    requires Reachable(c, s) && s.run.exit.Completed?
    ensures |s.run.records| == |s.stops| == c.N() && StopCalls(c, s.run, s.stops) && !s.ctx.trigger.Nil?
    ensures s.run.result == Multi([s.ctx.trigger] + s.run.stopErrs)
    ensures s.run.stopErrs == Entries(s.run.records) + DrainEntry(s.run.drainVerdict)
  {
    Invariance(c, s);
  }

  /** Past Init the result is the join of exactly the trigger, the failed and expired Stops in the order in
      which they were stopped, and at most one entry for the drain; so the nil branch is never taken. */
  lemma ResultShape(c: Config, s: State)
    requires Reachable(c, s) && s.run.exit.Completed?
    ensures !s.ctx.trigger.Nil? && |s.run.records| == |s.stops| == c.N()
    ensures s.run.result ==
      Multi([s.ctx.trigger] + Entries(s.run.records) + DrainEntry(s.run.drainVerdict))
    ensures forall k | 0 <= k < c.N() :: Justified(s.run.records[k].verdict, s.stops[c.N() - 1 - k])
  {
    ResultParts(c, s);
    var es, d := Entries(s.run.records), DrainEntry(s.run.drainVerdict);
    assert [s.ctx.trigger] + (es + d) == [s.ctx.trigger] + es + d;
  }

  /** The turns that did not end well, by number, in the order in which they were taken. */
  function BadTurns(records: seq<StopRecord>): seq<nat> {
    if records == [] then []
    else
      var last := |records| - 1;
      BadTurns(records[..last]) + (if records[last].verdict.StopOk? then [] else [last])
  }

  /** A failed Stop is reported by its own error, wrapped once, and one that was too late by ErrStopTimeout. */
  predicate ReportOf(e: Error, v: Verdict) {
    (v.StopFailed? && e == Wrap(v.err)) || (v.StopExpired? && e == Wrap(STOP_TIMEOUT))
  }

  lemma {:induction false} BadTurnsAre(records: seq<StopRecord>)
    ensures var bad := BadTurns(records);
      && (forall j | 0 <= j < |bad| :: bad[j] < |records|)
      && (forall j, k | 0 <= j < k < |bad| :: bad[j] < bad[k])
      && (forall k | 0 <= k < |records| :: k in bad <==> !records[k].verdict.StopOk?)
  {
    if records != [] {
      var last := |records| - 1;
      BadTurnsAre(records[..last]);
      var front, bad := BadTurns(records[..last]), BadTurns(records);
      assert last !in front;
      assert bad == front || bad == front + [last];
      forall k | 0 <= k < |records| ensures k in bad <==> !records[k].verdict.StopOk? {
        if k < last { assert records[..last][k] == records[k]; }
      }
    }
  }

  ghost predicate Matched(es: seq<Error>, bad: seq<nat>, records: seq<StopRecord>) {
    && |es| == |bad|
    && forall j | 0 <= j < |bad| :: bad[j] < |records| && ReportOf(es[j], records[bad[j]].verdict)
  }

  lemma MatchedMore(es: seq<Error>, bad: seq<nat>, front: seq<StopRecord>, r: StopRecord, e: Error)
    requires Matched(es, bad, front)
    ensures Matched(es, bad, front + [r])
    ensures ReportOf(e, r.verdict) ==> Matched(es + [e], bad + [|front|], front + [r])
  {
  }

  lemma {:induction false} EntriesAre(records: seq<StopRecord>)
    ensures Matched(Entries(records), BadTurns(records), records)
  {
    if records != [] {
      var front, r := records[..|records| - 1], records[|records| - 1];
      assert records == front + [r];
      EntriesAre(front);
      MatchedMore(Entries(front), BadTurns(front), front, r, if r.verdict.StopFailed? then Wrap(r.verdict.err) else Wrap(STOP_TIMEOUT));
      assert r.verdict.StopOk? ==> Entries(records) == Entries(front) && BadTurns(records) == BadTurns(front);
    }
  }

  lemma JoinedReports(trigger: Error, records: seq<StopRecord>, v: DrainVerdict)
    ensures var ms, bad := [trigger] + Entries(records) + DrainEntry(v), BadTurns(records);
      && |ms| == 1 + |bad| + (if v.Expired? then 1 else 0)
      && ms[0] == trigger
      && (forall j | 0 <= j < |bad| :: bad[j] < |records| && ReportOf(ms[1 + j], records[bad[j]].verdict))
      && (v.Expired? ==> ms[|ms| - 1] == Wrap(STOP_TIMEOUT))
  {
    EntriesAre(records);
    var es, bad := Entries(records), BadTurns(records);
    forall j | 0 <= j < |bad|
      ensures bad[j] < |records| && ReportOf(([trigger] + es + DrainEntry(v))[1 + j], records[bad[j]].verdict)
    {
      assert ([trigger] + es + DrainEntry(v))[1 + j] == es[j];
    }
  }

  /** Member by member: the trigger, a report of each turn that did not end well in the order of the turns, and
      ErrStopTimeout at the end if the drain was late. */
  lemma ResultMembers(c: Config, s: State)
    requires Reachable(c, s) && s.run.exit.Completed?
    ensures s.run.result.Multi? && |s.run.records| == c.N()
    ensures var ms, bad := s.run.result.members, BadTurns(s.run.records);
      && |ms| == 1 + |bad| + (if s.run.drainVerdict.Expired? then 1 else 0)
      && ms[0] == s.ctx.trigger
      && (forall j | 0 <= j < |bad| :: bad[j] < c.N() && ReportOf(ms[1 + j], s.run.records[bad[j]].verdict))
      && (s.run.drainVerdict.Expired? ==> ms[|ms| - 1] == Wrap(STOP_TIMEOUT))
      && (forall j, k | 0 <= j < k < |bad| :: bad[j] < bad[k])
      && (forall k | 0 <= k < c.N() :: k in bad <==> !s.run.records[k].verdict.StopOk?)
  {
    ResultShape(c, s);
    JoinedReports(s.ctx.trigger, s.run.records, s.run.drainVerdict);
    BadTurnsAre(s.run.records);
  }

  lemma ReportIs(e: Error, v: Verdict, t: Error)
    requires ReportOf(e, v) && t.Leaf?
    ensures Is(e, t) <==> if v.StopFailed? then Is(v.err, t) else t == STOP_TIMEOUT
  {
    assert Reaches(e, t) <==> Reaches(e.inner, t);
  }

  /** What a member of the result stands for. */
  ghost predicate Blamed(s: State, e: Error) {
    || e == s.ctx.trigger
    || (exists k | 0 <= k < |s.run.records| :: ReportOf(e, s.run.records[k].verdict))
    || (s.run.drainVerdict.Expired? && e == Wrap(STOP_TIMEOUT))
  }

  lemma MembersAreBlamed(c: Config, s: State, e: Error)
    requires Reachable(c, s) && s.run.exit.Completed?
    ensures s.run.result.Multi? && (e in s.run.result.members <==> Blamed(s, e))
  {
    ResultShape(c, s);
    BlamedIn(s.run.records, e);
    var es, d := Entries(s.run.records), DrainEntry(s.run.drainVerdict);
    assert forall x :: x in [s.ctx.trigger] + es + d <==> x == s.ctx.trigger || x in es || x in d;
  }

  lemma BlamedIn(records: seq<StopRecord>, e: Error)
    ensures e in Entries(records) <==> exists k | 0 <= k < |records| :: ReportOf(e, records[k].verdict)
  {
    EntriesAre(records);
    BadTurnsAre(records);
    var es, bad := Entries(records), BadTurns(records);
    if e in es {
      var j :| 0 <= j < |es| && es[j] == e;
      assert ReportOf(es[j], records[bad[j]].verdict);
    }
    if k :| 0 <= k < |records| && ReportOf(e, records[k].verdict) {
      assert k in bad;
      var j :| 0 <= j < |bad| && bad[j] == k;
      assert es[j] == e;
    }
  }

  lemma ReportedBy(s: State, e: Error, t: Error)
    requires Blamed(s, e) && e != s.ctx.trigger && Is(e, t) && t.Leaf?
    ensures
      || (exists k | 0 <= k < |s.run.records| :: s.run.records[k].verdict.StopFailed? && Is(s.run.records[k].verdict.err, t))
      || (t == STOP_TIMEOUT && exists k | 0 <= k < |s.run.records| :: s.run.records[k].verdict.StopExpired?)
      || (t == STOP_TIMEOUT && s.run.drainVerdict.Expired?)
  {
    if k :| 0 <= k < |s.run.records| && ReportOf(e, s.run.records[k].verdict) {
      ReportIs(e, s.run.records[k].verdict, t);
    } else {
      ReportIs(e, StopExpired, t);
    }
  }

  /** Sentinel by sentinel: the result of Run Is t exactly when the trigger Is t, or a Stop failed with an error that
      Is t, or t is ErrStopTimeout and some Stop or the drain was late. */
  lemma ResultSentinels(c: Config, s: State, t: Error)
    requires Reachable(c, s) && s.run.exit.Completed? && t.Leaf?
    ensures Is(s.run.result, t) <==>
      || Is(s.ctx.trigger, t)
      || (exists k | 0 <= k < |s.run.records| :: s.run.records[k].verdict.StopFailed? && Is(s.run.records[k].verdict.err, t))
      || (t == STOP_TIMEOUT && exists k | 0 <= k < |s.run.records| :: s.run.records[k].verdict.StopExpired?)
      || (t == STOP_TIMEOUT && s.run.drainVerdict.Expired?)
  {
    MembersAreBlamed(c, s, s.ctx.trigger);
    MembersAreBlamed(c, s, Wrap(STOP_TIMEOUT));
    var ms := s.run.result.members;
    if Is(s.run.result, t) {
      var i :| 0 <= i < |ms| && Reaches(ms[i], t);
      assert ms[i] in ms;
      MembersAreBlamed(c, s, ms[i]);
      if ms[i] != s.ctx.trigger { ReportedBy(s, ms[i], t); }
    }
    if Is(s.ctx.trigger, t) { MemberIs(ms, s.ctx.trigger, t); }
    if k :| 0 <= k < |s.run.records| && s.run.records[k].verdict.StopFailed? && Is(s.run.records[k].verdict.err, t) {
      var e := Wrap(s.run.records[k].verdict.err);
      assert ReportOf(e, s.run.records[k].verdict);
      MembersAreBlamed(c, s, e);
      MemberIs(ms, e, t);
    }
    if t == STOP_TIMEOUT && (s.run.drainVerdict.Expired? || exists k | 0 <= k < |s.run.records| :: s.run.records[k].verdict.StopExpired?) {
      if k :| 0 <= k < |s.run.records| && s.run.records[k].verdict.StopExpired? {
        assert ReportOf(Wrap(STOP_TIMEOUT), s.run.records[k].verdict);
      }
      MemberIs(ms, Wrap(STOP_TIMEOUT), t);
    }
  }

  lemma MemberIs(ms: seq<Error>, e: Error, t: Error)
    requires e in ms && Is(e, t) && !t.Nil?
    ensures Is(Multi(ms), t)
  {
    var i :| 0 <= i < |ms| && ms[i] == e;
    assert Reaches(ms[i], t);
  }

  lemma StopErrorOf(c: Config, s: State, i: nat, e: Error)
    requires Reachable(c, s) && s.run.exit.Completed? && i < |s.stops| && s.stops[i] == Stopped(e) && !e.Nil?
    requires i < |s.run.records| && !s.run.records[|s.run.records| - 1 - i].verdict.StopExpired?
    ensures s.run.result.Multi? && Wrap(e) in s.run.result.members
  {
    var k := |s.run.records| - 1 - i;
    assert Justified(s.run.records[k].verdict, s.stops[i]) by {
      ResultShape(c, s);
      assert c.N() - 1 - k == i;
    }
    assert ReportOf(Wrap(e), s.run.records[k].verdict);
    MembersAreBlamed(c, s, Wrap(e));
  }

  /** In terms of the run alone: the error of a Stop that came back in time is in the result as it is, wrapped once. */
  lemma StopErrorIsReported(c: Config, acts: seq<Action>, i: nat, e: Error)
    requires Exec(c, Initial(c), acts).Some? && StopReturn(i, Returned(e)) in acts && !e.Nil?
    requires var s := Exec(c, Initial(c), acts).value;
      s.run.exit.Completed? && i < |s.run.records| && !s.run.records[|s.run.records| - 1 - i].verdict.StopExpired?
    ensures var s := Exec(c, Initial(c), acts).value; s.run.result.Multi? && Wrap(e) in s.run.result.members
  {
    Remembered(c, acts, StopReturn(i, Returned(e)));
    StopErrorOf(c, Exec(c, Initial(c), acts).value, i, e);
  }

  lemma NeverNil(c: Config, s: State)
    requires Reachable(c, s) && s.run.pc.Done?
    ensures !s.run.result.Nil?
  {
    Invariance(c, s);
  }

  // ---------- the channel ----------

  predicate Outstanding(st: StartStatus) {
    !Delivered(st) && !Dropped(st)
  }

  /** How many of the goroutines satisfy `p`. */
  ghost function Count(starts: seq<StartStatus>, p: StartStatus -> bool): (k: nat)
    ensures k <= |starts|
  {
    if starts == [] then 0
    else Count(starts[..|starts| - 1], p) + (if p(starts[|starts| - 1]) then 1 else 0)
  }

  lemma {:induction false} CountsAddUp(starts: seq<StartStatus>)
    ensures Count(starts, Outstanding) + Deliveries(starts) + Count(starts, Dropped) == |starts|
  {
    if starts != [] { CountsAddUp(starts[..|starts| - 1]); }
  }

  lemma {:induction false} RoomForOneMore(starts: seq<StartStatus>, i: nat)
    requires i < |starts| && !Delivered(starts[i])
    ensures Deliveries(starts) < |starts|
  {
    var last := |starts| - 1;
    if i < last { RoomForOneMore(starts[..last], i); }
  }

  // ---------- every result has its own place on the channel ----------

  ghost predicate OnChannel(sends: seq<StartResult>, i: nat) {
    exists k :: 0 <= k < |sends| && sends[k].idx == i
  }

  /** Each goroutine whose result was accepted is named by an entry, and no two entries name the same one. */
  ghost predicate OneEntryEach(starts: seq<StartStatus>, sends: seq<StartResult>) {
    && (forall i | 0 <= i < |starts| && Delivered(starts[i]) :: OnChannel(sends, i))
    && (forall j, k | 0 <= j < k < |sends| :: sends[j].idx != sends[k].idx)
  }

  lemma PostEntry(c: Config, s: State, i: nat)
    requires Results(s.starts, s.chan.sends) && OneEntryEach(s.starts, s.chan.sends) && StartReady(c, s, i, Post)
    ensures var s' := StartApply(c, s, i, Post); OneEntryEach(s'.starts, s'.chan.sends)
  {
    var s', sends := StartApply(c, s, i, Post), s.chan.sends;
    forall j | 0 <= j < |s'.starts| && Delivered(s'.starts[j]) ensures OnChannel(s'.chan.sends, j) {
      if j == i {
        assert s'.chan.sends[|sends|].idx == i;
      } else {
        var k :| 0 <= k < |sends| && sends[k].idx == j;
        assert s'.chan.sends[k].idx == j;
      }
    }
  }

  lemma EntryStep(c: Config, s: State, a: Action)
    requires |s.starts| == |s.running| && Launches(c, s.run, s.starts, s.running) && Enabled(c, s, a)
    requires Results(s.starts, s.chan.sends) && OneEntryEach(s.starts, s.chan.sends)
    ensures var s' := Apply(c, s, a); OneEntryEach(s'.starts, s'.chan.sends)
  {
    if a.Start? && a.act.Post? {
      PostEntry(c, s, a.i);
    } else {
      var s' := Apply(c, s, a);
      forall i | 0 <= i < |s'.starts| && Delivered(s'.starts[i]) ensures OnChannel(s'.chan.sends, i) {
        OneStart(c, s, a, i);
        assert Delivered(s.starts[i]);
      }
    }
  }

  lemma {:induction false} EntriesOf(c: Config, acts: seq<Action>)
    requires Exec(c, Initial(c), acts).Some?
    ensures var s := Exec(c, Initial(c), acts).value; OneEntryEach(s.starts, s.chan.sends)
  {
    if acts != [] {
      var last := |acts| - 1;
      var s := Exec(c, Initial(c), acts[..last]).value;
      EntriesOf(c, acts[..last]);
      assert |s.starts| == |s.running| && Launches(c, s.run, s.starts, s.running) && Results(s.starts, s.chan.sends) by {
        InitialInv(c);
        ExecKeeps(c, Initial(c), acts[..last]);
      }
      EntryStep(c, s, acts[last]);
    }
  }

  /** No result is lost, doubled or invented on the channel, and results are given up only after shutdownDone is closed. */
  lemma Conservation(c: Config, s: State)
    requires Reachable(c, s)
    ensures Count(s.starts, Outstanding) + |s.chan.queue| + s.chan.received + Count(s.starts, Dropped) == c.N()
    ensures s.chan.received <= |s.chan.sends|
    ensures s.chan.sends == s.chan.sends[..s.chan.received] + s.chan.queue
    ensures forall i | 0 <= i < |s.starts| && Delivered(s.starts[i]) :: OnChannel(s.chan.sends, i)
    ensures forall j, k | 0 <= j < k < |s.chan.sends| :: s.chan.sends[j].idx != s.chan.sends[k].idx
    ensures Results(s.starts, s.chan.sends)
    ensures s.chan.drainer.Handling? ==> 0 < s.chan.received && s.chan.drainer.res == s.chan.sends[s.chan.received - 1]
    ensures (exists i | 0 <= i < |s.starts| :: Dropped(s.starts[i])) ==> s.shutdownDone
    ensures s.chan.drainer.Gone? && s.chan.queue != [] ==> s.shutdownDone
  {
    var acts :| Exec(c, Initial(c), acts) == Some(s);
    EntriesOf(c, acts);
    Invariance(c, s);
    CountsAddUp(s.starts);
  }

  /** What was sent stays sent, in the order in which it was sent, and is taken from the front. */
  lemma {:induction false} ChannelIsFifo(c: Config, s: State, acts: seq<Action>)
    requires Exec(c, s, acts).Some?
    ensures s.chan.sends <= Exec(c, s, acts).value.chan.sends
    ensures s.chan.received <= Exec(c, s, acts).value.chan.received
  {
    if acts != [] {
      ChannelIsFifo(c, s, acts[..|acts| - 1]);
    }
  }

  /** A goroutine with a result to send is never blocked, even after Run has returned. */
  lemma SendNeverBlocks(c: Config, s: State, i: nat)
    requires Reachable(c, s) && i < |s.starts| && s.starts[i].Holding?
    ensures Ready(c, s, Start(i, Post))
  {
    Invariance(c, s);
    RoomForOneMore(s.starts, i);
  }

  predicate Closes(a: Action) {
    a == Run(CloseShutdown) || a == CloseDoneAll || a == Drain(Quit)
  }

  ghost function Times(acts: seq<Action>, a: Action): nat {
    if acts == [] then 0
    else Times(acts[..|acts| - 1], a) + (if acts[|acts| - 1] == a then 1 else 0)
  }

  predicate IsClosed(s: State, a: Action)
    requires Closes(a)
  {
    if a.Run? then s.shutdownDone else if a.Drain? then s.chan.drainer.Gone? else s.waiter.Closed?
  }

  lemma CloseStep(c: Config, s: State, a: Action, step: Action)
    requires Bounds(c, s.run) && Shape(c, s) && Closes(a) && Enabled(c, s, step)
    ensures step == a ==> !IsClosed(s, a) && IsClosed(Apply(c, s, step), a)
    ensures step != a ==> IsClosed(Apply(c, s, step), a) == IsClosed(s, a)
  {
  }

  /** shutdownDone, drainDone and doneAll are each closed at most once in any run. */
  lemma {:induction false} ClosedOnce(c: Config, acts: seq<Action>, a: Action)
    requires Closes(a) && Exec(c, Initial(c), acts).Some?
    ensures Times(acts, a) == if IsClosed(Exec(c, Initial(c), acts).value, a) then 1 else 0
  {
    if acts != [] {
      var last := |acts| - 1;
      ClosedOnce(c, acts[..last], a);
      InitialInv(c);
      ExecKeeps(c, Initial(c), acts[..last]);
      CloseStep(c, Exec(c, Initial(c), acts[..last]).value, a, acts[last]);
    }
  }

  lemma ReceiveStep(c: Config, s: State, a: Action)
    requires Enabled(c, s, a)
    ensures Apply(c, s, a).chan.received == s.chan.received + (if a == Drain(Receive) then 1 else 0)
  {
  }

  lemma {:induction false} ReceivesCounted(c: Config, s: State, acts: seq<Action>)
    requires Exec(c, s, acts).Some?
    ensures Exec(c, s, acts).value.chan.received == s.chan.received + Times(acts, Drain(Receive))
  {
    if acts != [] {
      var last := |acts| - 1;
      ReceivesCounted(c, s, acts[..last]);
      ReceiveStep(c, Exec(c, s, acts[..last]).value, acts[last]);
    }
  }

  /** Even if its select keeps choosing the results, the drain goroutine takes at most n in all, so after
      shutdownDone is closed at most as many as it had not taken before. */
  lemma DrainIsFinite(c: Config, s: State, acts: seq<Action>)
    requires Reachable(c, s) && Exec(c, s, acts).Some?
    ensures s.chan.received + Times(acts, Drain(Receive)) <= c.N()
  {
    var s' := Exec(c, s, acts).value;
    var before :| Exec(c, Initial(c), before) == Some(s);
    ExecSplit(c, Initial(c), before, acts);
    assert Reachable(c, s');
    ReceivesCounted(c, s, acts);
    Conservation(c, s');
  }

  // ---------- time ----------

  lemma {:induction false} LimitIsLinear(from: nat, k: nat, grace: nat)
    ensures Limit(from, k, grace) == from + k * grace
  {
    if k > 0 {
      LimitIsLinear(from, k - 1, grace);
      assert (k - 1) * grace + grace == k * grace;
    }
  }

  lemma {:induction false} LimitGrows(from: nat, j: nat, k: nat, grace: nat)
    requires j <= k
    ensures Limit(from, j, grace) <= Limit(from, k, grace)
  {
    if j < k { LimitGrows(from, j, k - 1, grace); }
  }

  /** After internalCtx is cancelled, Run is over within (n + 1) * stopTimeout, whatever the components do. */
  lemma BoundedShutdown(c: Config, s: State)
    requires Reachable(c, s) && s.ctx.cancelled
    ensures !s.run.pc.Done? ==> s.now <= s.ctx.cancelledAt + (c.N() + 1) * c.Grace()
    ensures s.run.pc.Done? ==> s.run.returnedAt <= s.ctx.cancelledAt + (c.N() + 1) * c.Grace()
    ensures c.Grace() == if c.stopTimeout > 0 then c.stopTimeout else 0
  {
    Invariance(c, s);
    LimitIsLinear(s.ctx.cancelledAt, c.N() + 1, c.Grace());
    LimitGrows(s.ctx.cancelledAt, 0, c.N() + 1, c.Grace());
    LimitGrows(s.ctx.cancelledAt, CalledCount(c.N(), s.run), c.N() + 1, c.Grace());
  }

  /** A Stop is abandoned exactly at its deadline. */
  lemma StopsInTime(c: Config, s: State, k: nat)
    requires Reachable(c, s) && k < |s.run.records|
    ensures InTime(c.Grace(), s.run.records[k])
  {
    Invariance(c, s);
  }

  /** A Start that has neither failed nor done anything but come back with nil. */
  predicate Healthy(st: StartStatus) {
    st.InStart? || st == Exited(Nil, true)
  }

  /** A Start goroutine that is neither in the body nor over. */
  predicate Between(st: StartStatus) {
    st.Launched? || st.Holding? || st.Posted?
  }

  lemma GoroutineGoesOn(c: Config, s: State, i: nat)
    requires Reachable(c, s) && i < |s.starts| && Between(s.starts[i])
    ensures exists act: StartStep :: !act.Leave? && StartReady(c, s, i, act)
  {
    if s.starts[i].Holding? { SendNeverBlocks(c, s, i); }
    var act := if s.starts[i].Launched? then Enter else if s.starts[i].Holding? then Post else Exit;
    assert !act.Leave? && StartReady(c, s, i, act);
  }

  lemma RestingStart(c: Config, s: State, i: nat)
    requires Reachable(c, s) && s.run.pc.Waiting? && Quiescent(c, s) && i < |s.starts|
    ensures s.starts[i].InStart? || (s.starts[i].Exited? && s.starts[i].delivered)
  {
    assert forall act: StartStep | !act.Leave? :: !StartReady(c, s, i, act) by {
      forall act: StartStep | !act.Leave? ensures !StartReady(c, s, i, act) {
        assert Urgent(Start(i, act)) && !Ready(c, s, Start(i, act));
      }
    }
    assert !s.starts[i].Unlaunched? && !s.shutdownDone && (Dropped(s.starts[i]) ==> s.shutdownDone) by {
      Invariance(c, s);
    }
    if Between(s.starts[i]) { GoroutineGoesOn(c, s, i); }
  }

  /** In phase 3 at rest, every result was taken and handled, and none was an error. */
  lemma RestingChannel(c: Config, s: State)
    requires Reachable(c, s) && s.run.pc.Waiting? && Quiescent(c, s)
    ensures !s.ctx.cancelled && s.ctx.trigger.Nil? && s.ctx.parent.Nil?
    ensures forall k | 0 <= k < |s.chan.sends| :: s.chan.sends[k].err.Nil?
  {
    assert !s.ctx.cancelled by { assert Urgent(Run(Wake)) && !Ready(c, s, Run(Wake)); }
    assert s.ctx.parent.Nil? by { assert Urgent(Propagate) && !Ready(c, s, Propagate); }
    assert Urgent(Drain(Receive)) && !Ready(c, s, Drain(Receive));
    assert Urgent(Drain(Handle)) && !Ready(c, s, Drain(Handle));
    assert Channel(s.chan) && Trigger(s.run, s.chan, s.ctx) && !s.chan.drainer.Unspawned? && !s.chan.drainer.Gone? by {
      Invariance(c, s);
    }
  }

  /** Fail fast: Run never rests in phase 3 with a failed Start. When nothing is left to do but to wait, every
      Start is still in its body or has returned nil, and neither a trigger nor a cancellation is pending. */
  lemma FailFast(c: Config, s: State)
    requires Reachable(c, s) && s.run.pc.Waiting? && Quiescent(c, s)
    ensures !s.ctx.cancelled && s.ctx.trigger.Nil? && s.ctx.parent.Nil?
    ensures forall i | 0 <= i < |s.starts| :: Healthy(s.starts[i])
  {
    RestingChannel(c, s);
    Conservation(c, s);
    forall i | 0 <= i < |s.starts| ensures Healthy(s.starts[i]) {
      RestingStart(c, s, i);
      if Delivered(s.starts[i]) {
        var k :| 0 <= k < |s.chan.sends| && s.chan.sends[k].idx == i;
      }
    }
  }

  /** Deadlock freedom: a run that is not over can go on by itself, or is inside a user's Init, or waits in
      phase 3 with no trigger, a live parent and no failed Start, or waits for a timer that is still to fire
      and time can pass. */
  lemma NoDeadlock(c: Config, s: State)
    requires Reachable(c, s) && !s.run.pc.Done?
    ensures
      || (exists a :: Urgent(a) && Enabled(c, s, a))
      || s.run.pc.InitCall?
      || (s.run.pc.Waiting? && s.ctx.trigger.Nil? && s.ctx.parent.Nil? && forall i | 0 <= i < |s.starts| :: Healthy(s.starts[i]))
      || ((s.run.pc.StopWait? || s.run.pc.DrainWait?) && s.now < s.run.timer && Enabled(c, s, Tick))
  {
    Invariance(c, s);
    if !AtRest(s) {
      NextIsReady(c, s);
      assert Enabled(c, s, Next(c, s));
    } else if !Quiescent(c, s) {
      var a :| Urgent(a) && Ready(c, s, a);
      assert Enabled(c, s, a);
    } else if s.run.pc.Waiting? {
      FailFast(c, s);
    }
  }
}
