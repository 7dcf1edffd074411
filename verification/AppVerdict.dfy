/** The process verdict of core/app.go: `withoutCanceled`, and what App.Run returns. */
module AppVerdict {
  import opened GoErrors
  import opened Lifecycle
  import opened Invariant
  import opened Engine

  // ---------- withoutCanceled ----------

  function Kept(members: seq<Error>): seq<Error> {
    if members == [] then []
    else
      var last := |members| - 1;
      Kept(members[..last]) + (if Is(members[last], CANCELED) then [] else [members[last]])
  }

  /** Only the top level of a multi-error is taken apart. */
  function WithoutCanceled(err: Error): Error {
    if err.Multi? then Join(Kept(err.members))
    else if Is(err, CANCELED) then Nil else err
  }

  /** The type test and the loop of the Go function withoutCanceled. */
  method StripCanceled(err: Error) returns (r: Error)
    ensures r == WithoutCanceled(err)
  {
    if err.Multi? {
      var kept := [];
      for i := 0 to |err.members|
        invariant kept == Kept(err.members[..i])
      {
        assert err.members[..i + 1][..i] == err.members[..i];
        if !Is(err.members[i], CANCELED) {
          kept := kept + [err.members[i]];
        }
      }
      assert err.members[..|err.members|] == err.members;
      if |kept| == 0 { return Nil; }
      return Join(kept);
    }
    if Is(err, CANCELED) { return Nil; }
    return err;
  }

  /** Where the members that survive stand. */
  function Survivors(members: seq<Error>): seq<nat> {
    if members == [] then []
    else
      var last := |members| - 1;
      Survivors(members[..last])
      + (if Is(members[last], CANCELED) || members[last].Nil? then [] else [last])
  }

  lemma {:induction false} NonNilAppend(es: seq<Error>, e: Error)
    ensures NonNil(es + [e]) == NonNil(es) + (if e.Nil? then [] else [e])
  {
    if es == [] {
      assert es + [e] == [e];
    } else {
      NonNilAppend(es[1..], e);
      assert (es + [e])[1..] == es[1..] + [e];
      var head, tail := if es[0].Nil? then [] else [es[0]], if e.Nil? then [] else [e];
      assert head + (NonNil(es[1..]) + tail) == (head + NonNil(es[1..])) + tail;
    }
  }

  ghost predicate Ascending(ps: seq<nat>, n: nat) {
    && (forall k | 0 <= k < |ps| :: ps[k] < n)
    && (forall j, k | 0 <= j < k < |ps| :: ps[j] < ps[k])
  }

  lemma {:induction false} SurvivorsAscend(members: seq<Error>)
    ensures Ascending(Survivors(members), |members|)
  {
    if members != [] {
      var last := |members| - 1;
      SurvivorsAscend(members[..last]);
      var front := Survivors(members[..last]);
      assert Ascending(front, last);
      assert Survivors(members) == front || Survivors(members) == front + [last];
    }
  }

  lemma {:induction false} SurvivorsAre(members: seq<Error>)
    ensures forall i | 0 <= i < |members| :: i in Survivors(members) <==> !Is(members[i], CANCELED) && !members[i].Nil?
  {
    if members != [] {
      var last := |members| - 1;
      SurvivorsAre(members[..last]);
      SurvivorsAscend(members[..last]);
      assert last !in Survivors(members[..last]);
    }
  }

  lemma {:induction false} SurvivorsSelect(members: seq<Error>)
    ensures var ps, kept := Survivors(members), NonNil(Kept(members));
      && |kept| == |ps|
      && (forall k | 0 <= k < |ps| :: ps[k] < |members| && kept[k] == members[ps[k]])
  {
    if members != [] {
      var last := |members| - 1;
      SurvivorsSelect(members[..last]);
      SurvivorsAscend(members);
      NonNilAppend(Kept(members[..last]), members[last]);
      assert Kept(members[..last]) + [] == Kept(members[..last]);
    }
  }

  lemma SurvivorsMeaning(members: seq<Error>)
    ensures var ps := Survivors(members);
      && (forall k | 0 <= k < |ps| :: ps[k] < |members|)
      && (forall j, k | 0 <= j < k < |ps| :: ps[j] < ps[k])
      && (forall i | 0 <= i < |members| :: i in ps <==> !Is(members[i], CANCELED) && !members[i].Nil?)
      && |NonNil(Kept(members))| == |ps|
      && (forall k | 0 <= k < |ps| :: NonNil(Kept(members))[k] == members[ps[k]])
  {
    SurvivorsAscend(members);
    SurvivorsAre(members);
    SurvivorsSelect(members);
  }

  /** The members kept are exactly the non-nil ones that are not Canceled, in their original order. */
  lemma KeepsOrder(members: seq<Error>)
    ensures var ps, r := Survivors(members), WithoutCanceled(Multi(members));
      && (forall j, k | 0 <= j < k < |ps| :: ps[j] < ps[k])
      && (forall i | 0 <= i < |members| :: i in ps <==> !Is(members[i], CANCELED) && !members[i].Nil?)
      && (if ps == [] then r == Nil
          else r.Multi? && |r.members| == |ps|
               && forall k | 0 <= k < |ps| :: ps[k] < |members| && r.members[k] == members[ps[k]])
  {
    SurvivorsMeaning(members);
  }

  /** A sentinel other than Canceled survives exactly when a member that is not Canceled carries it. */
  lemma SentinelSurvives(members: seq<Error>, t: Error)
    requires t.Leaf? && t != CANCELED
    ensures Is(WithoutCanceled(Multi(members)), t) <==>
      exists i | 0 <= i < |members| :: !Is(members[i], CANCELED) && Is(members[i], t)
  {
    var ps, kept := Survivors(members), Kept(members);
    SurvivorsMeaning(members);
    var r := NonNil(kept);
    if Is(Join(kept), t) {
      var k :| 0 <= k < |r| && Reaches(r[k], t);
      assert ps[k] in ps;
      assert Is(members[ps[k]], t);
    }
    if i :| 0 <= i < |members| && !Is(members[i], CANCELED) && Is(members[i], t) {
      assert i in ps;
      var k :| 0 <= k < |ps| && ps[k] == i;
      assert Reaches(r[k], t);
    }
  }

  /** So a real error is lost exactly when every top-level member that carries it is also Canceled. */
  lemma SentinelLost(members: seq<Error>, t: Error)
    requires t.Leaf? && t != CANCELED && Is(Multi(members), t)
    ensures !Is(WithoutCanceled(Multi(members)), t) <==>
      forall i | 0 <= i < |members| && Is(members[i], t) :: Is(members[i], CANCELED)
  {
    SentinelSurvives(members, t);
  }

  /** Such an error: lifecycle.Run's result when a Start failed with a cancellation joined to `t` is dropped whole. */
  lemma LostFailure(t: Error)
    requires t.Leaf? && t != CANCELED
    ensures var err := Multi([Wrap(Multi([CANCELED, t]))]); Is(err, t) && WithoutCanceled(err) == Nil
  {
    var inner := Multi([CANCELED, t]);
    assert Reaches(inner.members[0], CANCELED) && Reaches(inner.members[1], t);
    assert Reaches(Multi([Wrap(inner)]).members[0], t);
    var members := [Wrap(inner)];
    assert Is(members[0], CANCELED) && members[..0] == [];
    assert Kept(members) == Kept(members[..0]) + [];
  }

  /** The comment on the function promises err itself unless all of it is Canceled. The code returns err
      itself exactly when there is nothing to drop. */
  lemma UnchangedWhen(err: Error)
    ensures WithoutCanceled(err) == err <==>
      if err.Multi? then err.members != [] && forall i | 0 <= i < |err.members| ::
                           !err.members[i].Nil? && !Is(err.members[i], CANCELED)
      else !Is(err, CANCELED)
  {
    if err.Multi? {
      var ms := err.members;
      if WithoutCanceled(err) == err { AllSurvive(ms); }
      if ms != [] && forall i | 0 <= i < |ms| :: !ms[i].Nil? && !Is(ms[i], CANCELED) { KeepsAll(ms); }
    }
  }

  lemma AllSurvive(ms: seq<Error>)
    requires |NonNil(Kept(ms))| == |ms|
    ensures forall i | 0 <= i < |ms| :: !ms[i].Nil? && !Is(ms[i], CANCELED)
  {
    SurvivorsSelect(ms);
    SurvivorsAscend(ms);
    SurvivorsAre(ms);
    AllIndices(Survivors(ms), |ms|);
  }

  lemma {:induction false} AllIndices(ps: seq<nat>, n: nat)
    requires |ps| == n
    requires forall k | 0 <= k < |ps| :: ps[k] < n
    requires forall j, k | 0 <= j < k < |ps| :: ps[j] < ps[k]
    ensures forall i | 0 <= i < n :: i in ps
  {
    if n > 0 {
      forall k | 0 <= k < n - 1 ensures ps[k] < n - 1 { assert ps[k] < ps[n - 1]; }
      AllIndices(ps[..n - 1], n - 1);
      assert forall i | 0 <= i < n - 1 :: i in ps[..n - 1] ==> i in ps;
      assert ps[n - 1] == n - 1 by {
        if n > 1 { assert n - 2 in ps[..n - 1]; }
      }
    }
  }

  lemma {:induction false} KeepsAll(ms: seq<Error>)
    requires forall i | 0 <= i < |ms| :: !ms[i].Nil? && !Is(ms[i], CANCELED)
    ensures Kept(ms) == ms && NonNil(ms) == ms
  {
    if ms != [] {
      KeepsAll(ms[..|ms| - 1]);
      assert ms == ms[..|ms| - 1] + [ms[|ms| - 1]];
    }
    NonNilOfClean(ms);
  }

  /** Whatever the error, no cancellation is left in what comes out. */
  lemma NeverCanceled(err: Error)
    ensures !Is(WithoutCanceled(err), CANCELED)
  {
    if err.Multi? {
      SurvivorsMeaning(err.members);
      var ps, r := Survivors(err.members), NonNil(Kept(err.members));
      forall k | 0 <= k < |r| ensures !Reaches(r[k], CANCELED) {
        assert ps[k] in ps;
      }
    }
  }

  lemma Idempotent(err: Error)
    ensures WithoutCanceled(WithoutCanceled(err)) == WithoutCanceled(err)
  {
    var r := WithoutCanceled(err);
    if err.Multi? && r.Multi? {
      SurvivorsMeaning(err.members);
      var ps := Survivors(err.members);
      forall k | 0 <= k < |r.members| ensures !r.members[k].Nil? && !Is(r.members[k], CANCELED) {
        assert ps[k] in ps;
      }
      KeepsAll(r.members);
    }
  }

  // ---------- App.Run ----------

  /** A Stop that leaves nothing behind but a cancellation. */
  predicate Clean(v: Verdict) {
    v.StopOk? || (v.StopFailed? && Is(v.err, CANCELED))
  }

  lemma {:induction false} EntriesClean(records: seq<StopRecord>)
    ensures (forall e | e in Entries(records) :: Is(e, CANCELED)) <==>
            (forall k | 0 <= k < |records| :: Clean(records[k].verdict))
  {
    if records != [] {
      var last := |records| - 1;
      EntriesClean(records[..last]);
      EntryClean(records[last].verdict);
      assert forall e :: e in Entries(records) <==> e in Entries(records[..last]) || e in Entry(records[last].verdict);
      assert forall k | 0 <= k < last :: records[..last][k] == records[k];
    }
  }

  lemma EntryClean(v: Verdict)
    ensures (forall e | e in Entry(v) :: Is(e, CANCELED)) <==> Clean(v)
  {
    if v.StopFailed? { assert Wrap(v.err) in Entry(v); }
    if v.StopExpired? {
      assert Wrap(STOP_TIMEOUT) in Entry(v);
      assert !Reaches(STOP_TIMEOUT, CANCELED);
    }
  }

  /** A multi-error comes out nil exactly when it is made of cancellations only. */
  lemma StrippedToNil(members: seq<Error>)
    requires Nil !in members
    ensures WithoutCanceled(Multi(members)) == Nil <==> forall e | e in members :: Is(e, CANCELED)
  {
    SurvivorsMeaning(members);
    var ps := Survivors(members);
    if ps != [] {
      assert ps[0] in ps;
      assert members[ps[0]] in members;
    }
    if e :| e in members && !Is(e, CANCELED) {
      var i :| 0 <= i < |members| && members[i] == e;
      assert i in ps;
    }
  }

  /** When App.Run, having run the engine to its end, returns nil. */
  predicate CleanEnd(s: State) {
    match s.run.exit
    case Running => false
    case InitAborted(_, err) => Is(err, CANCELED)
    case Completed =>
      && Is(s.ctx.trigger, CANCELED)
      && (forall k | 0 <= k < |s.run.records| :: Clean(s.run.records[k].verdict))
      && !s.run.drainVerdict.Expired?
  }

  lemma CompletedVerdict(c: Config, s: State)
    requires Reachable(c, s) && s.run.exit.Completed?
    ensures WithoutCanceled(s.run.result) == Nil <==> CleanEnd(s)
  {
    ResultShape(c, s);
    var es, d := Entries(s.run.records), DrainEntry(s.run.drainVerdict);
    var members := [s.ctx.trigger] + es + d;
    EntriesNonNil(s.run.records);
    EntriesClean(s.run.records);
    StrippedToNil(members);
    assert forall e :: e in members <==> e == s.ctx.trigger || e in es || e in d;
    if s.run.drainVerdict.Expired? {
      assert Wrap(STOP_TIMEOUT) in d;
      assert !Reaches(STOP_TIMEOUT, CANCELED);
    }
  }

  /** App.Run returns nil exactly when Init gave up with a cancellation, or the trigger is a cancellation,
      every Stop returned nil or a cancellation, and nothing timed out. A panic is none of these. */
  lemma RunVerdict(c: Config, s: State)
    requires Reachable(c, s) && s.run.pc.Done?
    ensures WithoutCanceled(s.run.result) == Nil <==> CleanEnd(s)
  {
    Invariance(c, s);
    if s.run.exit.Completed? {
      CompletedVerdict(c, s);
    }
  }

  lemma WellStopped(c: Config, records: seq<StopRecord>, stops: seq<StopStatus>)
    requires |records| == |stops| == c.N()
    requires forall k | 0 <= k < c.N() :: Justified(records[k].verdict, stops[c.N() - 1 - k])
    requires forall k | 0 <= k < c.N() :: Clean(records[k].verdict)
    ensures forall i | 0 <= i < c.N() :: stops[i].Stopped? && (stops[i].err.Nil? || Is(stops[i].err, CANCELED))
  {
    forall i | 0 <= i < c.N()
      ensures stops[i].Stopped? && (stops[i].err.Nil? || Is(stops[i].err, CANCELED))
    {
      var k := c.N() - 1 - i;
      assert Clean(records[k].verdict) && Justified(records[k].verdict, stops[c.N() - 1 - k]);
      assert c.N() - 1 - k == i;
    }
  }

  /** Nil from a run that got past Init means that every goroutine of the engine is over. */
  lemma NilLeaksNothing(c: Config, s: State)
    requires Reachable(c, s) && s.run.exit.Completed? && WithoutCanceled(s.run.result) == Nil
    ensures |s.starts| == |s.stops| == c.N()
    ensures forall i | 0 <= i < c.N() :: s.starts[i].Exited?
    ensures forall i | 0 <= i < c.N() :: s.stops[i].Stopped? && (s.stops[i].err.Nil? || Is(s.stops[i].err, CANCELED))
    ensures s.waiter.Closed? && s.chan.drainer.Gone?
  {
    assert |s.starts| == |s.stops| == c.N() && s.waiter.Closed? && s.chan.drainer.Gone? && AllExited(s.starts) by {
      Invariance(c, s);
      CompletedVerdict(c, s);
    }
    ResultShape(c, s);
    assert CleanEnd(s) by { CompletedVerdict(c, s); }
    WellStopped(c, s.run.records, s.stops);
  }

  /** Sentinel by sentinel: what App.Run returns after a completed run Is t, other than Canceled, exactly when the
      trigger is no cancellation and Is t, or a Stop failed with an error that is no cancellation and Is t, or t is
      ErrStopTimeout and some Stop or the drain was late. */
  lemma RunSentinels(c: Config, s: State, t: Error)
    requires Reachable(c, s) && s.run.exit.Completed? && t.Leaf? && t != CANCELED
    ensures Is(WithoutCanceled(s.run.result), t) <==>
      || (!Is(s.ctx.trigger, CANCELED) && Is(s.ctx.trigger, t))
      || (exists k | 0 <= k < |s.run.records| :: FailedWith(s.run.records[k].verdict, t))
      || (t == STOP_TIMEOUT && exists k | 0 <= k < |s.run.records| :: s.run.records[k].verdict.StopExpired?)
      || (t == STOP_TIMEOUT && s.run.drainVerdict.Expired?)
  {
    MembersAreBlamed(c, s, s.ctx.trigger);
    MembersAreBlamed(c, s, Wrap(STOP_TIMEOUT));
    var ms := s.run.result.members;
    SentinelSurvives(ms, t);
    TimeoutIsReal();
    if i :| 0 <= i < |ms| && !Is(ms[i], CANCELED) && Is(ms[i], t) {
      assert ms[i] in ms;
      MembersAreBlamed(c, s, ms[i]);
      if k :| 0 <= k < |s.run.records| && ReportOf(ms[i], s.run.records[k].verdict) {
        ReportIs(ms[i], s.run.records[k].verdict, t);
        ReportIs(ms[i], s.run.records[k].verdict, CANCELED);
      } else if ms[i] != s.ctx.trigger {
        ReportIs(ms[i], StopExpired, t);
      }
    }
    if k :| 0 <= k < |s.run.records| && FailedWith(s.run.records[k].verdict, t) {
      assert ReportOf(Wrap(s.run.records[k].verdict.err), s.run.records[k].verdict);
      MembersAreBlamed(c, s, Wrap(s.run.records[k].verdict.err));
    }
    if k :| 0 <= k < |s.run.records| && s.run.records[k].verdict.StopExpired? {
      assert ReportOf(Wrap(STOP_TIMEOUT), s.run.records[k].verdict);
    }
  }

  /** The Stop failed with an error that Is t and is no cancellation. */
  predicate FailedWith(v: Verdict, t: Error) {
    v.StopFailed? && !Is(v.err, CANCELED) && Is(v.err, t)
  }

  lemma TimeoutIsReal()
    ensures !Is(Wrap(STOP_TIMEOUT), CANCELED) && Is(Wrap(STOP_TIMEOUT), STOP_TIMEOUT)
  {
    assert !Reaches(STOP_TIMEOUT, CANCELED) && Reaches(STOP_TIMEOUT, STOP_TIMEOUT);
  }

  /** What App.Run returns after a failed Init: nil for a cancellation, and otherwise every sentinel of Init's error. */
  lemma InitErrorSentinels(c: Config, s: State, t: Error)
    requires Reachable(c, s) && s.run.exit.InitAborted? && t.Leaf?
    ensures Is(WithoutCanceled(s.run.result), t) <==> !Is(s.run.exit.err, CANCELED) && Is(s.run.exit.err, t)
  {
    InitFailureAborts(c, s);
  }

  // ---------- what nil and non-nil stand for ----------

  /** Nothing but a cancellation, or nothing at all. */
  predicate Harmless(err: Error) {
    err.Nil? || Is(err, CANCELED)
  }

  ghost predicate StartsHarmless(starts: seq<StartStatus>) {
    forall i | 0 <= i < |starts| && Delivered(starts[i]) :: Harmless(starts[i].err)
  }

  lemma TriggerHarmless(c: Config, s: State)
    requires Reachable(c, s) && Winding(s.run)
    requires Harmless(s.ctx.parent) && StartsHarmless(s.starts)
    ensures Is(s.ctx.trigger, CANCELED)
  {
    TriggerOrigin(c, s);
  }

  /** A clean shutdown, whoever caused it, gives nil. */
  lemma CleanShutdownIsNil(c: Config, s: State)
    requires Reachable(c, s) && s.run.exit.Completed?
    requires Harmless(s.ctx.parent) && StartsHarmless(s.starts)
    requires forall k | 0 <= k < |s.run.records| :: Clean(s.run.records[k].verdict)
    requires !s.run.drainVerdict.Expired?
    ensures WithoutCanceled(s.run.result) == Nil
  {
    TriggerHarmless(c, s);
    CompletedVerdict(c, s);
  }

  /** The trigger, by its cause, is a cancellation. */
  ghost predicate CanceledCause(s: State) {
    match s.ctx.origin
    case NoTrigger => false
    case FromParent => Is(s.ctx.parent, CANCELED)
    case FromStart(k) => 0 < k <= |s.chan.sends| && Is(s.chan.sends[k - 1].err, CANCELED)
  }

  /** What a non-nil result of App.Run means, exactly, in terms of what components and caller did: some Stop failed
      with more than a cancellation or was late, or the drain was late, or the one error that won (the caller's, or
      that of the first Start to fail) was not a cancellation. The last case is wider than the documentation of
      App.Run, which knows no error of the caller's other than Canceled. */
  lemma NonNilMeans(c: Config, s: State)
    requires Reachable(c, s) && s.run.exit.Completed?
    ensures WithoutCanceled(s.run.result) != Nil <==>
      || (exists k :: 0 <= k < |s.run.records| && !Clean(s.run.records[k].verdict))
      || s.run.drainVerdict.Expired?
      || !CanceledCause(s)
    ensures WithoutCanceled(s.run.result) != Nil ==>
      || !StartsHarmless(s.starts)
      || (exists k :: 0 <= k < |s.run.records| && !Clean(s.run.records[k].verdict))
      || s.run.drainVerdict.Expired?
      || !Harmless(s.ctx.parent)
  {
    TriggerOrigin(c, s);
    CompletedVerdict(c, s);
    if Harmless(s.ctx.parent) && StartsHarmless(s.starts) { TriggerHarmless(c, s); }
  }

  /** When every Start result that was delivered is nil, the caller's error and the shutdown decide alone. */
  lemma VerdictWithoutFailures(c: Config, s: State)
    requires Reachable(c, s) && s.run.exit.Completed?
    requires forall i | 0 <= i < |s.starts| && Delivered(s.starts[i]) :: s.starts[i].err.Nil?
    ensures WithoutCanceled(s.run.result) == Nil <==>
      && Is(s.ctx.parent, CANCELED)
      && (forall k | 0 <= k < |s.run.records| :: Clean(s.run.records[k].verdict))
      && !s.run.drainVerdict.Expired?
  {
    TriggerOrigin(c, s);
    CompletedVerdict(c, s);
  }
}
