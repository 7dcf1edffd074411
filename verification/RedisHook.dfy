/** Which commands, hits, misses and spans adapters/otelredis/hook.go marks as failed. */
module RedisHook {
  import opened GoErrors

  /** A command as the hook finds it after `next` has run. */
  datatype Cmd = Cmd(name: string, fullName: string, err: Error)

  datatype Sample = Sample(operation: string, error: bool)

  datatype Metrics = Metrics(samples: seq<Sample>, hits: nat, misses: nat)

  datatype Span = Span(operation: string, error: bool)

  /** The error test of record and of startSpan. */
  predicate Real(err: Error) {
    !err.Nil? && !Is(err, REDIS_NIL)
  }

  predicate IsGet(cmd: Cmd) {
    cmd.name == "get"
  }

  function Recorded(m: Metrics, cmd: Cmd, err: Error): Metrics {
    var m' := m.(samples := m.samples + [Sample(cmd.fullName, Real(err))]);
    if !IsGet(cmd) || Real(err) then m'
    else if Is(err, REDIS_NIL) then m'.(misses := m.misses + 1)
    else m'.(hits := m.hits + 1)
  }

  /** pipelineSpanErr. */
  function SpanErr(aggregate: Error, cmds: seq<Cmd>): Error {
    if cmds == [] then aggregate
    else if Real(cmds[0].err) then cmds[0].err
    else SpanErr(aggregate, cmds[1..])
  }

  /** pipelineFallbackErr. */
  function FallbackErr(aggregate: Error, cmds: seq<Cmd>): Error {
    if aggregate.Nil? || Is(aggregate, REDIS_NIL) then Nil
    else if exists i | 0 <= i < |cmds| :: !cmds[i].err.Nil? then Nil
    else aggregate
  }

  /** The error a batched command is recorded with. */
  function Charged(aggregate: Error, cmds: seq<Cmd>, i: int): Error
    requires 0 <= i < |cmds|
  {
    if cmds[i].err.Nil? then FallbackErr(aggregate, cmds) else cmds[i].err
  }

  /** The metrics after the first k commands of the batch. */
  function RecordedUpTo(m: Metrics, aggregate: Error, cmds: seq<Cmd>, k: nat): Metrics
    requires k <= |cmds|
  {
    if k == 0 then m
    else Recorded(RecordedUpTo(m, aggregate, cmds, k - 1), cmds[k - 1], Charged(aggregate, cmds, k - 1))
  }

  class Hook {
    var samples: seq<Sample>
    var hits: nat
    var misses: nat
    var spans: seq<Span>

    ghost function View(): Metrics
      reads this
    {
      Metrics(samples, hits, misses)
    }

    constructor ()
      ensures View() == Metrics([], 0, 0) && spans == []
    {
      samples, hits, misses, spans := [], 0, 0, [];
    }

    method Record(cmd: Cmd, err: Error)
      modifies this
      ensures View() == Recorded(old(View()), cmd, err) && spans == old(spans)
    {
      var isErr := !err.Nil? && !Is(err, REDIS_NIL);
      samples := samples + [Sample(cmd.fullName, isErr)];
      if cmd.name == "get" && !isErr {
        if Is(err, REDIS_NIL) { misses := misses + 1; } else { hits := hits + 1; }
      }
    }

    method EndSpan(operation: string, err: Error)
      modifies this`spans
      ensures spans == old(spans) + [Span(operation, !err.Nil? && !Is(err, REDIS_NIL))]
    {
      var failed := false;
      if !err.Nil? && !Is(err, REDIS_NIL) { failed := true; }
      spans := spans + [Span(operation, failed)];
    }

    /** ProcessHook around a `next` that came back with err. */
    method Process(cmd: Cmd, err: Error) returns (r: Error)
      modifies this
      ensures r == err
      ensures View() == Recorded(old(View()), cmd, err)
      ensures spans == old(spans) + [Span(cmd.fullName, !err.Nil? && !Is(err, REDIS_NIL))]
    {
      Record(cmd, err);
      EndSpan(cmd.fullName, err);
      return err;
    }

    /** ProcessPipelineHook around a `next` that left these errors on the commands and came back with `aggregate`. */
    method ProcessPipeline(cmds: seq<Cmd>, aggregate: Error) returns (r: Error)
      modifies this
      ensures r == aggregate
      ensures View() == RecordedUpTo(old(View()), aggregate, cmds, |cmds|)
      ensures spans == old(spans) + [Span("pipeline", Real(SpanErr(aggregate, cmds)))]
    {
      var fallback := FallbackErr(aggregate, cmds);
      for i := 0 to |cmds|
        invariant View() == RecordedUpTo(old(View()), aggregate, cmds, i)
        invariant spans == old(spans)
      {
        var cmdErr := cmds[i].err;
        if cmdErr.Nil? { cmdErr := fallback; }
        Record(cmds[i], cmdErr);
      }
      EndSpan("pipeline", SpanErr(aggregate, cmds));
      return aggregate;
    }
  }

  // ---------- what the numbers mean ----------

  /** What one call of record does: a sample for the command, an error unless the error is nil or redis.Nil; and for a
      GET a hit without an error, a miss with redis.Nil, and neither with any other error. */
  lemma RecordedMeans(m: Metrics, cmd: Cmd, err: Error)
    ensures var m' := Recorded(m, cmd, err);
      && m'.samples == m.samples + [Sample(cmd.fullName, err != Nil && !Is(err, REDIS_NIL))]
      && m'.hits == m.hits + (if cmd.name == "get" && err == Nil then 1 else 0)
      && m'.misses == m.misses + (if cmd.name == "get" && err != Nil && Is(err, REDIS_NIL) then 1 else 0)
  {
  }

  /** The batch failed as a whole: no command has an error, and the aggregate is one other than redis.Nil. */
  ghost predicate BatchFailed(aggregate: Error, cmds: seq<Cmd>) {
    aggregate != Nil && !Is(aggregate, REDIS_NIL) && forall i | 0 <= i < |cmds| :: cmds[i].err == Nil
  }

  /** Command i has an error of its own other than redis.Nil, or the batch failed as a whole. */
  ghost predicate Failed(aggregate: Error, cmds: seq<Cmd>, i: nat)
    requires i < |cmds|
  {
    (cmds[i].err != Nil && !Is(cmds[i].err, REDIS_NIL)) || BatchFailed(aggregate, cmds)
  }

  lemma ChargedMeans(aggregate: Error, cmds: seq<Cmd>, i: nat)
    requires i < |cmds|
    ensures var e := Charged(aggregate, cmds, i);
      && (e != Nil && !Is(e, REDIS_NIL) <==> Failed(aggregate, cmds, i))
      && (e == Nil <==> cmds[i].err == Nil && !BatchFailed(aggregate, cmds))
      && (e != Nil && Is(e, REDIS_NIL) <==> cmds[i].err != Nil && Is(cmds[i].err, REDIS_NIL))
  {
  }

  /** GETs among the first k commands, and of these the ones without an error in a batch that did not fail as a whole,
      the ones that found no key, and the failed ones. */
  function Gets(cmds: seq<Cmd>, k: nat): nat
    requires k <= |cmds|
  {
    if k == 0 then 0 else Gets(cmds, k - 1) + (if cmds[k - 1].name == "get" then 1 else 0)
  }

  ghost function GoodGets(aggregate: Error, cmds: seq<Cmd>, k: nat): nat
    requires k <= |cmds|
  {
    if k == 0 then 0
    else GoodGets(aggregate, cmds, k - 1)
         + (if cmds[k - 1].name == "get" && cmds[k - 1].err == Nil && !BatchFailed(aggregate, cmds) then 1 else 0)
  }

  function MissedGets(cmds: seq<Cmd>, k: nat): nat
    requires k <= |cmds|
  {
    if k == 0 then 0
    else MissedGets(cmds, k - 1)
         + (if cmds[k - 1].name == "get" && cmds[k - 1].err != Nil && Is(cmds[k - 1].err, REDIS_NIL) then 1 else 0)
  }

  ghost function FailedGets(aggregate: Error, cmds: seq<Cmd>, k: nat): nat
    requires k <= |cmds|
  {
    if k == 0 then 0
    else FailedGets(aggregate, cmds, k - 1)
         + (if cmds[k - 1].name == "get" && Failed(aggregate, cmds, k - 1) then 1 else 0)
  }

  /** One sample per command, in order: an error exactly when the command has an error of its own other than redis.Nil
      or the batch failed as a whole. Every GET is a hit, a miss or a failure: a hit exactly when it has no error and
      the batch did not fail as a whole, a miss exactly when its own error is redis.Nil. */
  lemma {:induction false} BatchIsAccounted(m: Metrics, aggregate: Error, cmds: seq<Cmd>, k: nat)
    requires k <= |cmds|
    ensures var m' := RecordedUpTo(m, aggregate, cmds, k);
      && |m'.samples| == |m.samples| + k
      && m'.samples[..|m.samples|] == m.samples
      && (forall i | 0 <= i < k :: m'.samples[|m.samples| + i] == Sample(cmds[i].fullName, Failed(aggregate, cmds, i)))
      && m'.hits - m.hits == GoodGets(aggregate, cmds, k)
      && m'.misses - m.misses == MissedGets(cmds, k)
      && (m'.hits - m.hits) + (m'.misses - m.misses) + FailedGets(aggregate, cmds, k) == Gets(cmds, k)
  {
    if k > 0 {
      BatchIsAccounted(m, aggregate, cmds, k - 1);
      ChargedMeans(aggregate, cmds, k - 1);
      RecordedMeans(RecordedUpTo(m, aggregate, cmds, k - 1), cmds[k - 1], Charged(aggregate, cmds, k - 1));
    }
  }

  /** Some command of the batch is recorded as failed. */
  ghost predicate SomeFailed(aggregate: Error, cmds: seq<Cmd>) {
    exists i | 0 <= i < |cmds| :: Failed(aggregate, cmds, i)
  }

  /** The error of the span is one other than redis.Nil exactly when the aggregate is, or some command's error is. */
  lemma {:induction false} SpanErrMeaning(aggregate: Error, cmds: seq<Cmd>)
    ensures Real(SpanErr(aggregate, cmds)) <==>
      || (aggregate != Nil && !Is(aggregate, REDIS_NIL))
      || exists i | 0 <= i < |cmds| :: cmds[i].err != Nil && !Is(cmds[i].err, REDIS_NIL)
  {
    if cmds != [] {
      SpanErrMeaning(aggregate, cmds[1..]);
      if i :| 0 <= i < |cmds| && Real(cmds[i].err) {
        if i > 0 { assert Real(cmds[1..][i - 1].err); }
      }
      if i :| 0 <= i < |cmds[1..]| && Real(cmds[1..][i].err) { assert Real(cmds[i + 1].err); }
    }
  }

  /** Which error the span records: the first of a command other than redis.Nil, and the aggregate if there is none. */
  lemma {:induction false} SpanErrIsFirst(aggregate: Error, cmds: seq<Cmd>)
    ensures
      || (exists k | 0 <= k < |cmds| ::
            && SpanErr(aggregate, cmds) == cmds[k].err && cmds[k].err != Nil && !Is(cmds[k].err, REDIS_NIL)
            && forall i | 0 <= i < k :: cmds[i].err == Nil || Is(cmds[i].err, REDIS_NIL))
      || (SpanErr(aggregate, cmds) == aggregate
          && forall i | 0 <= i < |cmds| :: cmds[i].err == Nil || Is(cmds[i].err, REDIS_NIL))
  {
    if cmds != [] && !Real(cmds[0].err) {
      SpanErrIsFirst(aggregate, cmds[1..]);
      if k :| 0 <= k < |cmds[1..]| && SpanErr(aggregate, cmds[1..]) == cmds[1..][k].err && Real(cmds[1..][k].err)
              && forall i | 0 <= i < k :: cmds[1..][i].err == Nil || Is(cmds[1..][i].err, REDIS_NIL)
      {
        assert cmds[k + 1] == cmds[1..][k];
        forall i | 0 <= i < k + 1 ensures cmds[i].err == Nil || Is(cmds[i].err, REDIS_NIL) {
          if i > 0 { assert cmds[i] == cmds[1..][i - 1]; }
        }
      } else {
        forall i | 0 <= i < |cmds| ensures cmds[i].err == Nil || Is(cmds[i].err, REDIS_NIL) {
          if i > 0 { assert cmds[i] == cmds[1..][i - 1]; }
        }
      }
    }
  }

  /** A failed command is never hidden behind a clean span. */
  lemma FailureMarksSpan(aggregate: Error, cmds: seq<Cmd>)
    requires SomeFailed(aggregate, cmds)
    ensures Real(SpanErr(aggregate, cmds))
  {
    SpanErrMeaning(aggregate, cmds);
  }

  /** A failed span without a failed command: exactly when only the aggregate is real, and it is charged
      to nobody because the batch is empty or some command carries a redis.Nil of its own. */
  lemma SpanWithoutFailure(aggregate: Error, cmds: seq<Cmd>)
    ensures Real(SpanErr(aggregate, cmds)) && !SomeFailed(aggregate, cmds) <==>
      && aggregate != Nil && !Is(aggregate, REDIS_NIL)
      && (forall i | 0 <= i < |cmds| :: cmds[i].err == Nil || Is(cmds[i].err, REDIS_NIL))
      && (cmds == [] || exists i | 0 <= i < |cmds| :: !cmds[i].err.Nil?)
  {
    SpanErrMeaning(aggregate, cmds);
    if i :| 0 <= i < |cmds| && Real(cmds[i].err) {
      assert Failed(aggregate, cmds, i);
    }
    if Real(aggregate) && cmds != [] && forall i | 0 <= i < |cmds| :: cmds[i].err.Nil? {
      assert Failed(aggregate, cmds, 0);
    }
  }

  /** What go-redis gives for the aggregate of a batch that reached the server. */
  function FirstErr(cmds: seq<Cmd>): Error {
    if cmds == [] then Nil else if !cmds[0].err.Nil? then cmds[0].err else FirstErr(cmds[1..])
  }

  lemma {:induction false} FirstErrIsSomebodys(cmds: seq<Cmd>)
    requires !FirstErr(cmds).Nil?
    ensures exists i | 0 <= i < |cmds| :: cmds[i].err == FirstErr(cmds)
  {
    if cmds[0].err.Nil? {
      FirstErrIsSomebodys(cmds[1..]);
      var i :| 0 <= i < |cmds[1..]| && cmds[1..][i].err == FirstErr(cmds);
      assert cmds[i + 1].err == FirstErr(cmds);
    }
  }

  /** So for a non-empty batch whose aggregate is go-redis's, or whose commands carry no error, the
      span and the samples agree. */
  lemma SpanAgreesWithSamples(aggregate: Error, cmds: seq<Cmd>)
    requires cmds != []
    requires aggregate == FirstErr(cmds) || forall i | 0 <= i < |cmds| :: cmds[i].err.Nil?
    ensures Real(SpanErr(aggregate, cmds)) <==> SomeFailed(aggregate, cmds)
  {
    SpanWithoutFailure(aggregate, cmds);
    if SomeFailed(aggregate, cmds) { FailureMarksSpan(aggregate, cmds); }
    if Real(aggregate) && aggregate == FirstErr(cmds) { FirstErrIsSomebodys(cmds); }
  }

  /** Outside that contract they can part: a transport error next to a key miss marks only the span. */
  lemma SpanCanDisagree()
    ensures var cmds := [Cmd("get", "get", REDIS_NIL)];
      Real(SpanErr(Panic, cmds)) && !SomeFailed(Panic, cmds)
  {
    var cmds := [Cmd("get", "get", REDIS_NIL)];
    assert !cmds[0].err.Nil?;
    SpanWithoutFailure(Panic, cmds);
  }
}
