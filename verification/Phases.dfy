/** The sequential parts of lifecycle.Run as they are written: closures over shared variables, and loops
    over the items. Each is tied to the function by which the transition system describes it. */
module Phases {
  import opened GoErrors
  import opened Lifecycle
  import opened Invariant

  /** triggerErr with its closures, and the cancel function they call. */
  class TriggerCell {
    var triggerErr: Error
    var cancelled: bool

    constructor ()
      ensures triggerErr == Nil && !cancelled
    {
      triggerErr, cancelled := Nil, false;
    }

    method SetTrigger(err: Error)
      modifies this
      ensures forall x: Ctx, from, now | x.trigger == old(triggerErr) && x.cancelled == old(cancelled) ::
        var x' := Lifecycle.SetTrigger(x, err, from, now); triggerErr == x'.trigger && cancelled == x'.cancelled
    {
      if triggerErr == Nil {
        triggerErr := err;
        cancelled := true;
      }
    }

    method GetTrigger() returns (err: Error)
      ensures err == triggerErr
    {
      return triggerErr;
    }
  }

  /** Phase 1. `calls[i]` is what Init of item i would do; `log` is what was called. */
  method InitLoop(hasInit: seq<bool>, calls: seq<Call>) returns (err: Error, log: seq<Event>)
    requires |calls| == |hasInit|
    ensures err == Nil ==>
      log == InitEvents(hasInit, |hasInit|) && forall i | 0 <= i < |calls| && hasInit[i] :: calls[i] == Returned(Nil)
    ensures err != Nil ==> exists i ::
      && 0 <= i < |calls| && hasInit[i] && calls[i] != Returned(Nil)
      && (match calls[i] case Returned(e) => err == Wrap(e) case Panicked => err == Wrap(Panic))
      && log == InitEvents(hasInit, i + 1)
      && forall j | 0 <= j < i && hasInit[j] :: calls[j] == Returned(Nil)
  {
    log := [];
    for i := 0 to |hasInit|
      invariant log == InitEvents(hasInit, i)
      invariant forall j | 0 <= j < i && hasInit[j] :: calls[j] == Returned(Nil)
    {
      if !hasInit[i] { continue; }
      log := log + [EvInit(i)];
      var e := SafeCall(calls[i]);
      if e != Nil { return Wrap(e), log; }
    }
    return Nil, log;
  }

  /** Phase 2: every item is marked before its goroutine exists. */
  method LaunchLoop(running: array<bool>) returns (log: seq<Event>)
    modifies running
    ensures forall i | 0 <= i < running.Length :: running[i]
    ensures log == LaunchEvents(running.Length)
  {
    log := [];
    for i := 0 to running.Length
      invariant forall j | 0 <= j < i :: running[j]
      invariant log == LaunchEvents(i)
    {
      running[i] := true;
      log := log + [EvLaunch(i)];
    }
  }

  /** What the Stop of an item does if it is called: it never comes back, or it does after some time. If that is
      exactly the time it is given, `wins` says whether the select of Run takes its result or the deadline. */
  datatype StopBehaviour = Hangs | ComesBack(after: nat, call: Call, wins: bool)

  predicate InTimeFor(b: StopBehaviour, grace: nat) {
    b.ComesBack? && (b.after < grace || (b.after == grace && b.wins))
  }

  /** One turn of the Stop loop: how it ends, and when. */
  function Turn(b: StopBehaviour, grace: nat, began: nat): StopRecord {
    if !InTimeFor(b, grace) then StopRecord(StopExpired, began, began + grace)
    else
      var err := SafeCall(b.call);
      StopRecord(if err.Nil? then StopOk else StopFailed(err), began, began + b.after)
  }

  /** When the k-th turn can begin. */
  function BeginOf(from: nat, turns: seq<StopRecord>, k: nat): nat
    requires k <= |turns|
  {
    if k == 0 then from else turns[k - 1].ended
  }

  /** When the last of the turns was over. */
  function LastEnd(from: nat, turns: seq<StopRecord>): nat {
    BeginOf(from, turns, |turns|)
  }

  /** The turns for items n - 1 down to i, passing over those not running; each begins when the one before it ended. */
  function Turns(running: seq<bool>, bs: seq<StopBehaviour>, grace: nat, from: nat, i: nat): seq<StopRecord>
    requires i <= |running| == |bs|
    decreases |running| - i
  {
    if i == |running| then []
    else
      var later := Turns(running, bs, grace, from, i + 1);
      later + (if running[i] then [Turn(bs[i], grace, LastEnd(from, later))] else [])
  }

  function TurnEvents(running: seq<bool>, bs: seq<StopBehaviour>, grace: nat, i: nat): seq<Event>
    requires i <= |running| == |bs|
    decreases |running| - i
  {
    if i == |running| then []
    else
      TurnEvents(running, bs, grace, i + 1)
      + (if running[i] then [EvStop(i), EvStopEnd(i, Turn(bs[i], grace, 0).verdict)] else [])
  }

  lemma OneMoreTurn(running: seq<bool>, bs: seq<StopBehaviour>, grace: nat, from: nat, i: nat)
    requires i < |running| == |bs|
    ensures var later := Turns(running, bs, grace, from, i + 1);
      var turn := if running[i] then [Turn(bs[i], grace, LastEnd(from, later))] else [];
      && Turns(running, bs, grace, from, i) == later + turn
      && Entries(later + turn) == Entries(later) + (if running[i] then Entry(turn[0].verdict) else [])
  {
    var later := Turns(running, bs, grace, from, i + 1);
    if running[i] {
      var turn := Turn(bs[i], grace, LastEnd(from, later));
      assert (later + [turn])[..|later|] == later;
    } else {
      assert later + [] == later && Entries(later) + [] == Entries(later);
    }
  }

  /** The select of one turn, and what its branches append to stopErrs. */
  method AwaitStop(b: StopBehaviour, grace: nat, began: nat, stopErrs: seq<Error>)
    returns (verdict: Verdict, now: nat, errs: seq<Error>)
    ensures Turn(b, grace, began) == StopRecord(verdict, began, now)
    ensures errs == stopErrs + Entry(verdict)
    ensures b.ComesBack? && b.after < grace ==>
      && now == began + b.after
      && (b.call == Returned(Nil) ==> verdict == StopOk && errs == stopErrs)
      && (b.call.Returned? && b.call.err != Nil ==> verdict == StopFailed(b.call.err) && errs == stopErrs + [Wrap(b.call.err)])
      && (b.call.Panicked? ==> verdict == StopFailed(Panic) && errs == stopErrs + [Wrap(Panic)])
    ensures b.Hangs? || grace < b.after ==>
      now == began + grace && verdict == StopExpired && errs == stopErrs + [Wrap(STOP_TIMEOUT)]
    ensures b.ComesBack? && b.after == grace ==> now == began + grace && (verdict.StopExpired? <==> !b.wins)
  {
    var deadline := began + grace;
    if b.ComesBack? && (began + b.after < deadline || (began + b.after == deadline && b.wins)) {
      var err := SafeCall(b.call);
      if err != Nil { return StopFailed(err), began + b.after, stopErrs + [Wrap(err)]; }
      return StopOk, began + b.after, stopErrs;
    }
    return StopExpired, deadline, stopErrs + [Wrap(STOP_TIMEOUT)];
  }

  /** Phase 4, begun at `from`: `bs[i]` is what the Stop of item i does. */
  method StopLoop(running: array<bool>, bs: seq<StopBehaviour>, grace: nat, from: nat)
    returns (stopErrs: seq<Error>, log: seq<Event>, now: nat)
    requires |bs| == running.Length
    ensures stopErrs == Entries(Turns(running[..], bs, grace, from, 0))
    ensures log == TurnEvents(running[..], bs, grace, 0)
    ensures now == LastEnd(from, Turns(running[..], bs, grace, from, 0))
  {
    stopErrs, log, now := [], [], from;
    ghost var r := running[..];
    var i := running.Length - 1;
    while i >= 0
      invariant -1 <= i < running.Length
      invariant stopErrs == Entries(Turns(r, bs, grace, from, i + 1))
      invariant log == TurnEvents(r, bs, grace, i + 1)
      invariant now == LastEnd(from, Turns(r, bs, grace, from, i + 1))
    {
      OneMoreTurn(r, bs, grace, from, i);
      if running[i] {
        var verdict;
        verdict, now, stopErrs := AwaitStop(bs[i], grace, now, stopErrs);
        SameVerdict(bs[i], grace, LastEnd(from, Turns(r, bs, grace, from, i + 1)));
        log := log + [EvStop(i), EvStopEnd(i, verdict)];
      }
      i := i - 1;
    }
  }

  lemma SameVerdict(b: StopBehaviour, grace: nat, began: nat)
    ensures Turn(b, grace, began).verdict == Turn(b, grace, 0).verdict
  {
  }

  /** A turn is never waited for past its deadline, is given up exactly at it, and is a failure exactly if its Stop
      came back in time with an error or a panic. */
  lemma TurnMeaning(b: StopBehaviour, grace: nat, began: nat)
    ensures InTime(grace, Turn(b, grace, began))
    ensures Turn(b, grace, began).verdict.StopExpired? <==> b.Hangs? || grace < b.after || (b.after == grace && !b.wins)
    ensures var v := Turn(b, grace, began).verdict;
      && (v.StopOk? ==> b.ComesBack? && b.call == Returned(Nil))
      && (v.StopFailed? ==> b.ComesBack? && v.err != Nil && (b.call == Returned(v.err) || (b.call.Panicked? && v.err == Panic)))
  {
  }

  /** One turn per item in descending order, each begun when the one before it was over. */
  ghost predicate Chained(bs: seq<StopBehaviour>, grace: nat, from: nat, turns: seq<StopRecord>) {
    && |turns| <= |bs|
    && forall k | 0 <= k < |turns| :: turns[k] == Turn(bs[|bs| - 1 - k], grace, BeginOf(from, turns, k))
  }

  lemma ChainOneMore(bs: seq<StopBehaviour>, grace: nat, from: nat, turns: seq<StopRecord>)
    requires Chained(bs, grace, from, turns) && |turns| < |bs|
    ensures Chained(bs, grace, from, turns + [Turn(bs[|bs| - 1 - |turns|], grace, LastEnd(from, turns))])
  {
    var ts := turns + [Turn(bs[|bs| - 1 - |turns|], grace, LastEnd(from, turns))];
    forall k | 0 <= k < |ts| ensures ts[k] == Turn(bs[|bs| - 1 - k], grace, BeginOf(from, ts, k)) {
      assert BeginOf(from, turns, k) == BeginOf(from, ts, k);
      if k < |turns| { assert ts[k] == turns[k]; }
    }
  }

  lemma {:induction false} ChainEnds(bs: seq<StopBehaviour>, grace: nat, from: nat, turns: seq<StopRecord>)
    requires Chained(bs, grace, from, turns)
    ensures LastEnd(from, turns) <= Limit(from, |turns|, grace)
  {
    if turns != [] {
      var last := |turns| - 1;
      forall k | 0 <= k < last ensures turns[..last][k] == Turn(bs[|bs| - 1 - k], grace, BeginOf(from, turns[..last], k)) {
        assert BeginOf(from, turns[..last], k) == BeginOf(from, turns, k);
      }
      ChainEnds(bs, grace, from, turns[..last]);
      assert LastEnd(from, turns[..last]) == BeginOf(from, turns, last);
      TurnMeaning(bs[|bs| - 1 - last], grace, BeginOf(from, turns, last));
    }
  }

  lemma {:induction false} TurnsChain(running: seq<bool>, bs: seq<StopBehaviour>, grace: nat, from: nat, i: nat)
    requires i <= |running| == |bs| && forall j | 0 <= j < |running| :: running[j]
    ensures var ts := Turns(running, bs, grace, from, i); |ts| == |running| - i && Chained(bs, grace, from, ts)
    decreases |running| - i
  {
    if i < |running| {
      var later := Turns(running, bs, grace, from, i + 1);
      TurnsChain(running, bs, grace, from, i + 1);
      ChainOneMore(bs, grace, from, later);
      assert |bs| - 1 - |later| == i;
    }
  }

  /** When every item is running, as Phase 2 leaves them, there is a turn for each, in descending order, each begun
      when the one before it was over; so the loop takes at most one grace per item. */
  lemma TurnsAreAll(running: seq<bool>, bs: seq<StopBehaviour>, grace: nat, from: nat)
    requires |running| == |bs| && forall j | 0 <= j < |running| :: running[j]
    ensures var ts := Turns(running, bs, grace, from, 0);
      |ts| == |bs| && Chained(bs, grace, from, ts) && LastEnd(from, ts) <= Limit(from, |bs|, grace)
  {
    TurnsChain(running, bs, grace, from, 0);
    ChainEnds(bs, grace, from, Turns(running, bs, grace, from, 0));
  }

  /** And the events are those of the transition system. */
  lemma {:induction false} TurnsOfAll(running: seq<bool>, bs: seq<StopBehaviour>, grace: nat, from: nat, i: nat)
    requires i <= |running| == |bs| && forall j | 0 <= j < |running| :: running[j]
    ensures |Turns(running, bs, grace, from, i)| == |running| - i
    ensures TurnEvents(running, bs, grace, i) == StopEvents(|running|, Turns(running, bs, grace, from, i))
    decreases |running| - i
  {
    if i < |running| {
      TurnsOfAll(running, bs, grace, from, i + 1);
      var later, ts := Turns(running, bs, grace, from, i + 1), Turns(running, bs, grace, from, i);
      assert ts == later + [Turn(bs[i], grace, LastEnd(from, later))];
      assert ts[..|ts| - 1] == later;
    }
  }

  lemma JoinIsNil(es: seq<Error>)
    ensures Join(es) == Nil <==> forall e | e in es :: e == Nil
  {
    var kept := NonNil(es);
    if kept != [] { assert kept[0] in es && kept[0] != Nil; }
  }

  /** The aggregation: nil exactly when there is no error at all; otherwise the trigger, if any, in front of the Stop
      errors in their order, with every sentinel of theirs and no other. */
  method AggregateErrors(finalErr: Error, stopErrs: seq<Error>) returns (r: Error)
    ensures r == Nil <==> finalErr == Nil && forall e | e in stopErrs :: e == Nil
    ensures Nil !in stopErrs && finalErr != Nil ==> r == Multi([finalErr] + stopErrs)
    ensures Nil !in stopErrs && finalErr == Nil && stopErrs != [] ==> r == Multi(stopErrs)
    ensures forall t: Error | !t.Nil? && !t.Multi? ::
      Is(r, t) <==> Is(finalErr, t) || exists e | e in stopErrs :: Is(e, t)
    ensures r == Aggregate(finalErr, stopErrs)
  {
    if finalErr == Nil && |stopErrs| == 0 { return Nil; }
    var all := [];
    if finalErr != Nil { all := all + [finalErr]; }
    all := all + stopErrs;
    if Nil !in stopErrs { NonNilOfClean(all); }
    JoinIsNil(all);
    assert forall e :: e in all <==> (e == finalErr && e != Nil) || e in stopErrs;
    forall t: Error | !t.Nil? && !t.Multi?
      ensures Is(Join(all), t) <==> Is(finalErr, t) || exists e | e in stopErrs :: Is(e, t)
    {
      JoinIs(all, t);
      JoinedMembers(finalErr, stopErrs, all, t);
    }
    return Join(all);
  }

  lemma JoinedMembers(finalErr: Error, stopErrs: seq<Error>, all: seq<Error>, t: Error)
    requires all == (if finalErr == Nil then [] else [finalErr]) + stopErrs && !t.Nil?
    ensures (exists i | 0 <= i < |all| :: Is(all[i], t)) <==> Is(finalErr, t) || exists e | e in stopErrs :: Is(e, t)
  {
    assert forall e :: e in all <==> (e == finalErr && e != Nil) || e in stopErrs;
    if i :| 0 <= i < |all| && Is(all[i], t) { assert all[i] in all; }
    if e :| e in all && Is(e, t) {
      var i :| 0 <= i < |all| && all[i] == e;
      assert Is(all[i], t);
    }
  }
}
