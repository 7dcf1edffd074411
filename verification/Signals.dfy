/** signals.Trap of core/internal/signals/signals.go: the watcher goroutine, any number of concurrent
    callers of the stop function, and the environment that delivers signals or cancels the context. */
module Signals {

  /** `Leaving` has left the select; `TookSignal` has still to call cancel. */
  datatype Watcher = Watching | TookSignal | Leaving | Exited

  /** A caller of stop: `Inside` runs the body of once.Do, `Queued` waits for whoever does. */
  datatype Caller =
    | NotCalled
    | Queued
    | Unregister
    | CallCancel
    | AwaitDone
    | Finish
    | Returned

  datatype OnceState = Free | Taken | Spent

  datatype State = State(
    pending: bool,          // a signal in the one-place channel
    registered: bool,       // signal.Notify in force
    cancelled: bool,        // ctx is done
    watcher: Watcher,
    done: bool,             // the done channel is closed
    once: OnceState,
    callers: seq<Caller>)

  datatype Action =
    | Deliver
    | CancelOutside
    | TakeSignal
    | WatcherCancel
    | SeeCancelled
    | CloseDone
    | CallStop(j: nat)
    | EnterOnce(j: nat)
    | SkipOnce(j: nat)
    | StopNotify(j: nat)
    | StopCancel(j: nat)
    | SeeDone(j: nat)
    | LeaveOnce(j: nat)

  function Initial(callers: nat): State {
    State(false, true, false, Watching, false, Free, seq(callers, _ => NotCalled))
  }

  /** A select with both branches ready takes either; a signal that finds the channel full is lost. */
  predicate Enabled(s: State, a: Action) {
    match a
    case Deliver => s.registered
    case CancelOutside => true
    case TakeSignal => s.watcher.Watching? && s.pending
    case WatcherCancel => s.watcher.TookSignal?
    case SeeCancelled => s.watcher.Watching? && s.cancelled
    case CloseDone => s.watcher.Leaving?
    case CallStop(j) => j < |s.callers| && s.callers[j].NotCalled?
    case EnterOnce(j) => j < |s.callers| && s.callers[j].Queued? && s.once.Free?
    case SkipOnce(j) => j < |s.callers| && s.callers[j].Queued? && s.once.Spent?
    case StopNotify(j) => j < |s.callers| && s.callers[j].Unregister?
    case StopCancel(j) => j < |s.callers| && s.callers[j].CallCancel?
    case SeeDone(j) => j < |s.callers| && s.callers[j].AwaitDone? && s.done
    case LeaveOnce(j) => j < |s.callers| && s.callers[j].Finish?
  }

  function Apply(s: State, a: Action): State
    requires Enabled(s, a)
  {
    match a
    case Deliver => s.(pending := true)
    case CancelOutside => s.(cancelled := true)
    case TakeSignal => s.(pending := false, watcher := TookSignal)
    case WatcherCancel => s.(cancelled := true, watcher := Leaving)
    case SeeCancelled => s.(watcher := Leaving)
    case CloseDone => s.(watcher := Exited, done := true)
    case CallStop(j) => s.(callers := s.callers[j := Queued])
    case EnterOnce(j) => s.(callers := s.callers[j := Unregister], once := Taken)
    case SkipOnce(j) => s.(callers := s.callers[j := Returned])
    case StopNotify(j) => s.(callers := s.callers[j := CallCancel], registered := false)
    case StopCancel(j) => s.(callers := s.callers[j := AwaitDone], cancelled := true)
    case SeeDone(j) => s.(callers := s.callers[j := Finish])
    case LeaveOnce(j) => s.(callers := s.callers[j := Returned], once := Spent)
  }

  datatype Option<T> = None | Some(value: T)

  function Exec(s0: State, acts: seq<Action>): Option<State> {
    if acts == [] then Some(s0)
    else
      var last := |acts| - 1;
      match Exec(s0, acts[..last])
      case None => None
      case Some(s) => if Enabled(s, acts[last]) then Some(Apply(s, acts[last])) else None
  }

  predicate Inside(c: Caller) {
    c.Unregister? || c.CallCancel? || c.AwaitDone? || c.Finish?
  }

  /** The watcher and what it leaves behind. */
  ghost predicate WatcherInv(s: State) {
    && (s.done <==> s.watcher.Exited?)
    && (s.watcher.Leaving? || s.watcher.Exited? ==> s.cancelled)
  }

  /** At most one caller is inside once.Do, exactly when it is taken. */
  ghost predicate OnceInv(s: State) {
    && (!s.once.Taken? ==> forall j | 0 <= j < |s.callers| :: !Inside(s.callers[j]))
    && (forall i, j | 0 <= i < j < |s.callers| :: !(Inside(s.callers[i]) && Inside(s.callers[j])))
    && (s.once.Taken? ==> exists j | 0 <= j < |s.callers| :: Inside(s.callers[j]))
  }

  /** How far a caller's own steps have brought things. */
  predicate CallerInv(s: State, c: Caller) {
    && (c.CallCancel? || c.AwaitDone? || c.Finish? ==> !s.registered)
    && (c.AwaitDone? || c.Finish? ==> s.cancelled)
    && (c.Finish? ==> s.done)
    && (c.Returned? ==> s.once.Spent?)
  }

  ghost predicate Inv(s: State) {
    && WatcherInv(s)
    && OnceInv(s)
    && (s.once.Spent? ==> s.done && !s.registered)
    && (forall j | 0 <= j < |s.callers| :: CallerInv(s, s.callers[j]))
  }

  /** Only EnterOnce takes a caller inside. */
  lemma InsideFrom(s: State, a: Action, j: nat)
    requires Enabled(s, a) && j < |s.callers|
    ensures |Apply(s, a).callers| == |s.callers|
    ensures Inside(Apply(s, a).callers[j]) <==>
      (Inside(s.callers[j]) && a != LeaveOnce(j)) || a == EnterOnce(j)
  {
  }

  lemma OnceStep(s: State, a: Action)
    requires OnceInv(s) && Enabled(s, a)
    ensures OnceInv(Apply(s, a))
  {
    var s' := Apply(s, a);
    forall j | 0 <= j < |s.callers|
      ensures |s'.callers| == |s.callers|
      ensures Inside(s'.callers[j]) <==> (Inside(s.callers[j]) && a != LeaveOnce(j)) || a == EnterOnce(j)
    {
      InsideFrom(s, a, j);
    }
    if a.EnterOnce? {
      assert Inside(s'.callers[a.j]);
    } else if s'.once.Taken? {
      var j :| 0 <= j < |s.callers| && Inside(s.callers[j]);
      assert Inside(s'.callers[j]);
    }
  }

  lemma CallerStep(s: State, a: Action)
    requires Inv(s) && Enabled(s, a)
    ensures var s' := Apply(s, a);
      && (s'.once.Spent? ==> s'.done && !s'.registered)
      && (forall j | 0 <= j < |s'.callers| :: CallerInv(s', s'.callers[j]))
  {
  }

  lemma InvStep(s: State, a: Action)
    requires Inv(s) && Enabled(s, a)
    ensures Inv(Apply(s, a))
  {
    OnceStep(s, a);
    CallerStep(s, a);
  }

  lemma {:induction false} Invariance(callers: nat, acts: seq<Action>)
    requires Exec(Initial(callers), acts).Some?
    ensures Inv(Exec(Initial(callers), acts).value)
  {
    if acts != [] {
      var last := |acts| - 1;
      Invariance(callers, acts[..last]);
      InvStep(Exec(Initial(callers), acts[..last]).value, acts[last]);
    }
  }

  /** However many callers race and whenever signals arrive: a stop that has returned finds the watcher
      gone with done closed, the handler unregistered, and the context cancelled. */
  lemma StopWaitsForWatcher(callers: nat, acts: seq<Action>, j: nat)
    requires Exec(Initial(callers), acts).Some?
    requires var s := Exec(Initial(callers), acts).value; j < |s.callers| && s.callers[j].Returned?
    ensures var s := Exec(Initial(callers), acts).value;
      s.done && s.watcher.Exited? && s.cancelled && !s.registered
  {
    Invariance(callers, acts);
  }

  function Times(acts: seq<Action>, a: Action): nat {
    if acts == [] then 0
    else Times(acts[..|acts| - 1], a) + (if acts[|acts| - 1] == a then 1 else 0)
  }

  /** done is closed at most once; the watcher leaves its select exactly once before that, and if it
      left with a signal it has called cancel exactly once. */
  lemma {:induction false} WatcherRunsOnce(callers: nat, acts: seq<Action>)
    requires Exec(Initial(callers), acts).Some?
    ensures var w := Exec(Initial(callers), acts).value.watcher;
      && Times(acts, CloseDone) == (if w.Exited? then 1 else 0)
      && Times(acts, TakeSignal) + Times(acts, SeeCancelled) == (if w.Watching? then 0 else 1)
      && Times(acts, TakeSignal) == Times(acts, WatcherCancel) + (if w.TookSignal? then 1 else 0)
  {
    if acts != [] {
      WatcherRunsOnce(callers, acts[..|acts| - 1]);
    }
  }

  // ---------- stop always comes back ----------

  /** Steps of the watcher and of callers inside stop. */
  predicate OwnStep(a: Action) {
    !a.Deliver? && !a.CancelOutside? && !a.CallStop?
  }

  function CallerRank(c: Caller): nat {
    match c
    case NotCalled => 6
    case Queued => 5
    case Unregister => 4
    case CallCancel => 3
    case AwaitDone => 2
    case Finish => 1
    case Returned => 0
  }

  function CallersRank(cs: seq<Caller>): nat {
    if cs == [] then 0 else CallersRank(cs[..|cs| - 1]) + CallerRank(cs[|cs| - 1])
  }

  function Rank(s: State): nat {
    CallersRank(s.callers) + (match s.watcher case Watching => 3 case TookSignal => 2 case Leaving => 1 case Exited => 0)
  }

  lemma {:induction false} CallersRankUpdate(cs: seq<Caller>, j: nat, c: Caller)
    requires j < |cs|
    ensures CallersRank(cs[j := c]) == CallersRank(cs) - CallerRank(cs[j]) + CallerRank(c)
  {
    var last := |cs| - 1;
    if j == last {
      assert cs[j := c][..last] == cs[..last];
    } else {
      CallersRankUpdate(cs[..last], j, c);
      assert cs[j := c][..last] == cs[..last][j := c];
    }
  }

  /** Whenever a caller is in stop, the watcher or some caller can go on, and every such step brings the end nearer. */
  lemma StopProgresses(callers: nat, acts: seq<Action>, j: nat)
    requires Exec(Initial(callers), acts).Some?
    requires var s := Exec(Initial(callers), acts).value;
      j < |s.callers| && !s.callers[j].NotCalled? && !s.callers[j].Returned?
    ensures var s := Exec(Initial(callers), acts).value; exists a :: OwnStep(a) && Enabled(s, a)
  {
    var s := Exec(Initial(callers), acts).value;
    Invariance(callers, acts);
    var i := j;
    if s.callers[j].Queued? && s.once.Taken? { i :| 0 <= i < |s.callers| && Inside(s.callers[i]); }
    var caller := s.callers[i];
    var a :=
      if caller.Queued? then (if s.once.Free? then EnterOnce(i) else SkipOnce(i))
      else if caller.Unregister? then StopNotify(i)
      else if caller.CallCancel? then StopCancel(i)
      else if caller.Finish? then LeaveOnce(i)
      else if s.done then SeeDone(i)
      else if s.watcher.Watching? then SeeCancelled
      else if s.watcher.TookSignal? then WatcherCancel
      else CloseDone;
    assert OwnStep(a) && Enabled(s, a);
  }

  lemma OwnStepsRunOut(s: State, a: Action)
    requires Enabled(s, a) && !a.Deliver? && !a.CancelOutside?
    ensures Rank(Apply(s, a)) < Rank(s)
  {
    match a
    case CallStop(j) => CallersRankUpdate(s.callers, j, Queued);
    case EnterOnce(j) => CallersRankUpdate(s.callers, j, Unregister);
    case SkipOnce(j) => CallersRankUpdate(s.callers, j, Returned);
    case StopNotify(j) => CallersRankUpdate(s.callers, j, CallCancel);
    case StopCancel(j) => CallersRankUpdate(s.callers, j, AwaitDone);
    case SeeDone(j) => CallersRankUpdate(s.callers, j, Finish);
    case LeaveOnce(j) => CallersRankUpdate(s.callers, j, Returned);
    case _ =>
  }

  /** How many steps of a schedule are those of the watcher and of callers. */
  function ProgramSteps(acts: seq<Action>): nat {
    if acts == [] then 0
    else
      var a := acts[|acts| - 1];
      ProgramSteps(acts[..|acts| - 1]) + (if a.Deliver? || a.CancelOutside? then 0 else 1)
  }

  lemma {:induction false} StepsLowerRank(s: State, acts: seq<Action>)
    requires Exec(s, acts).Some?
    ensures Rank(Exec(s, acts).value) + ProgramSteps(acts) <= Rank(s)
  {
    if acts != [] {
      var last := |acts| - 1;
      var mid := Exec(s, acts[..last]).value;
      StepsLowerRank(s, acts[..last]);
      if acts[last].Deliver? || acts[last].CancelOutside? {
        assert Rank(Apply(mid, acts[last])) == Rank(mid);
      } else {
        OwnStepsRunOut(mid, acts[last]);
      }
    }
  }

  lemma {:induction false} RankAtStart(cs: seq<Caller>)
    requires forall j | 0 <= j < |cs| :: cs[j].NotCalled?
    ensures CallersRank(cs) == 6 * |cs|
  {
    if cs != [] { RankAtStart(cs[..|cs| - 1]); }
  }

  /** stop always comes back: however many signals arrive and however the callers race, the watcher and the callers
      take at most 6 * callers + 3 steps in all, and when they have none left to take every call of stop has returned. */
  lemma StopComesBack(callers: nat, acts: seq<Action>)
    requires Exec(Initial(callers), acts).Some?
    ensures ProgramSteps(acts) <= 6 * callers + 3
    ensures var s := Exec(Initial(callers), acts).value;
      (forall a | OwnStep(a) :: !Enabled(s, a)) ==>
        forall j | 0 <= j < |s.callers| :: s.callers[j].NotCalled? || s.callers[j].Returned?
  {
    var s := Exec(Initial(callers), acts).value;
    StepsLowerRank(Initial(callers), acts);
    RankAtStart(Initial(callers).callers);
    forall j | 0 <= j < |s.callers| && !s.callers[j].NotCalled? && !s.callers[j].Returned?
      ensures exists a :: OwnStep(a) && Enabled(s, a)
    {
      StopProgresses(callers, acts, j);
    }
  }

  /** Signals arrive at any time while the handler is on, anybody may cancel the context, and anybody call stop; and the
      watcher's select takes either branch when both are ready. */
  lemma EnvironmentIsFree(s: State, j: nat)
    ensures s.registered ==> Enabled(s, Deliver)
    ensures Enabled(s, CancelOutside)
    ensures j < |s.callers| && s.callers[j].NotCalled? ==> Enabled(s, CallStop(j))
    ensures s.watcher.Watching? && s.pending && s.cancelled ==> Enabled(s, TakeSignal) && Enabled(s, SeeCancelled)
  {
  }

  // ---------- what a signal does ----------

  /** A signal waits in the channel until the watcher has left its select. */
  lemma {:induction false} SignalIsKept(callers: nat, acts: seq<Action>)
    requires Exec(Initial(callers), acts).Some? && Deliver in acts
    ensures var s := Exec(Initial(callers), acts).value; s.pending || !s.watcher.Watching?
  {
    var last := |acts| - 1;
    assert acts == acts[..last] + [acts[last]];
    if Deliver in acts[..last] { SignalIsKept(callers, acts[..last]); }
  }

  /** A signal cancels the context: once one was delivered and the program has nothing left to do by itself, the context
      is cancelled and the watcher gone, whether or not anybody called stop. */
  lemma SignalCancels(callers: nat, acts: seq<Action>)
    requires Exec(Initial(callers), acts).Some? && Deliver in acts
    ensures var s := Exec(Initial(callers), acts).value;
      (forall a | OwnStep(a) :: !Enabled(s, a)) ==> s.cancelled && s.watcher.Exited?
  {
    var s := Exec(Initial(callers), acts).value;
    SignalIsKept(callers, acts);
    Invariance(callers, acts);
    if forall a | OwnStep(a) :: !Enabled(s, a) {
      assert OwnStep(TakeSignal) && OwnStep(WatcherCancel) && OwnStep(CloseDone);
    }
  }

  /** So does the end of the context for any other reason: the watcher does not outlive it. */
  lemma CancelEndsWatcher(callers: nat, acts: seq<Action>)
    requires Exec(Initial(callers), acts).Some?
    ensures var s := Exec(Initial(callers), acts).value;
      s.cancelled && (forall a | OwnStep(a) :: !Enabled(s, a)) ==> s.watcher.Exited? && s.done
  {
    var s := Exec(Initial(callers), acts).value;
    Invariance(callers, acts);
    if s.cancelled && forall a | OwnStep(a) :: !Enabled(s, a) {
      assert OwnStep(SeeCancelled) && OwnStep(WatcherCancel) && OwnStep(CloseDone);
    }
  }

  /** And nothing else cancels it: a cancelled context was cancelled from outside, by a signal, or by a stop. */
  lemma {:induction false} CancelHasCause(callers: nat, acts: seq<Action>)
    requires Exec(Initial(callers), acts).Some?
    ensures var s := Exec(Initial(callers), acts).value;
      && (s.pending || s.watcher.TookSignal? ==> Deliver in acts)
      && (s.cancelled ==> CancelOutside in acts || Deliver in acts || exists j :: StopCancel(j) in acts)
  {
    if acts != [] {
      var last := |acts| - 1;
      CancelHasCause(callers, acts[..last]);
      assert acts == acts[..last] + [acts[last]];
      if acts[last].StopCancel? { assert StopCancel(acts[last].j) in acts; }
      if j :| StopCancel(j) in acts[..last] { assert StopCancel(j) in acts; }
    }
  }

  /** After a stop has returned no signal reaches the channel any more. */
  lemma NoSignalAfterStop(callers: nat, acts: seq<Action>, j: nat, more: seq<Action>)
    requires Exec(Initial(callers), acts).Some? && Exec(Initial(callers), acts + more).Some?
    requires var s := Exec(Initial(callers), acts).value; j < |s.callers| && s.callers[j].Returned?
    ensures Deliver !in more
  {
    StopWaitsForWatcher(callers, acts, j);
    Silent(callers, acts, more);
  }

  lemma SilentStep(s: State, a: Action)
    requires Enabled(s, a) && !s.registered
    ensures a != Deliver && !Apply(s, a).registered
  {
  }

  lemma {:induction false} Silent(callers: nat, acts: seq<Action>, more: seq<Action>)
    requires Exec(Initial(callers), acts).Some? && !Exec(Initial(callers), acts).value.registered
    requires Exec(Initial(callers), acts + more).Some?
    ensures !Exec(Initial(callers), acts + more).value.registered && Deliver !in more
  {
    if more == [] {
      assert acts + more == acts;
    } else {
      var last, all := |more| - 1, acts + more;
      assert all[..|all| - 1] == acts + more[..last] && all[|all| - 1] == more[last];
      Silent(callers, acts, more[..last]);
      SilentStep(Exec(Initial(callers), acts + more[..last]).value, more[last]);
      assert more == more[..last] + [more[last]];
    }
  }
}
