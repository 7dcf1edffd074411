# Verification of micra

A Dafny model of micra's lifecycle engine, of the `App` verdict built on it, and of the small protocols and
codecs around them, with proofs about every input, every schedule and every run. `dafny verify dfyconfig.toml`
checks the whole project.

## What is modelled

- **Errors** (`GoErrors.dfy`). A Go error is a tree: nil, a leaf with an identity, a panic's rendering, a wrap of
  one error, a wrap of many. `Is` is `errors.Is`, `Join` is `errors.Join`. Nil is a constructor, so nil members
  of multi-errors are covered.
- **The engine** (`Lifecycle.dfy`, `Invariant.dfy`, `Engine.dfy`, `Deadlines.dfy`, `Termination.dfy`, `Phases.dfy`). One call of
  `lifecycle.Run` is a labelled transition system over n items. Its actions are the atomic steps of the goroutine
  of Run, of n Start goroutines, of the goroutine that drains `startResults`, of n Stop goroutines, of the
  goroutine that waits for the wait group, of the parent context, and of a discrete clock. A select with several
  ready cases enables several actions. Components may return, fail, panic or hang in Init, Start and Stop. The
  clock ticks only when no step of the program itself is possible (`Quiescent`), which is what the bounds on time
  assume; nothing else depends on it. `Phases.dfy` writes the sequential loops and closures of Run as imperative
  code and ties them to the functions of the transition system.
- **The verdict** (`AppVerdict.dfy`, `RunOnce.dfy`, `Registration.dfy`). `withoutCanceled`, what a nil from `Run`
  means for every goroutine, `RunOnce` as the engine composed with the closure around fn, and `Register`,
  `markStarted` and `buildItems` under any interleaving of callers.
- **Protocols around the engine** (`Signals.dfy`, `Servers.dfy`). The signal trap with any number of concurrent
  stop calls; the Start/Stop handshakes of the gRPC and http servers composed with the engine.
- **Codecs and stores** (`SqlComment.dfy`, `RedisHook.dfy`, `RedisCache.dfy`). The sqlcommenter printer with its
  inverse parser, the attribution of errors in a Redis pipeline, and prefixed caches on one Redis as a refinement
  of caches with a Redis each.
- **Runs written out** (`Witness.dfy`), step by step, one for each place where the verdict is not what the
  documentation says.

## Where the code and its comments differ

The model follows the code.

- `core/internal/lifecycle/lifecycle_test.go:152` says that a component whose Start failed is not stopped. Every
  item is marked running when it is launched (`core/internal/lifecycle/lifecycle.go:71-76`), so every item is
  stopped: `Invariant.NoSkip`, `Engine.PhaseOrder`.
- `core/app.go:222-224` says that `withoutCanceled` returns its argument unchanged unless all of it is Canceled.
  It looks one level down and drops members one by one: `AppVerdict.UnchangedWhen` gives the exact condition for
  an unchanged result, `AppVerdict.SentinelLost` for the loss of a real error. `Witness.FailureCanBeStripped` is a
  run: a Start fails with a cancellation joined to a real error, and `Run` returns nil.
- `core/app.go:131-133` lists the causes of a non-nil result of `Run`. A caller's context that ends with an error
  other than Canceled is one more: `AppVerdict.NonNilMeans` has the exact list, `Witness.DeadlineIsReported` a run.
  And nil does not mean that no Start failed, since an error that comes after the trigger is dropped:
  `Witness.StartErrorCanBeDropped`.
- `core/app.go:155-158` says that fn's error is in the result of `RunOnce`. It is if the drain was in time, or fn came
  back before the drain's deadline (`RunOnce.FnErrorReported`), and is not if fn came back after it
  (`RunOnce.LateFnIsIgnored`). At the very tick of the deadline both happen, although fn returned before the engine:
  `Witness.FnErrorCanBeLost`, `Witness.FnErrorCanBeSaved`.
- `adapters/otelpgx/README.md:31-33` says that the comment is omitted without a valid span. It is omitted only when
  all three fields are empty: `SqlComment.OmittedWhen`.

## Assumptions

- The clock is discrete, and program steps take no time, those of RunOnce and of its closure around fn included.
  Init, Start, Stop and fn take as long as the environment likes, for ever included.
- Cancelling the parent context and the resulting cancellation of `internalCtx` are two steps, in this order.
- Errors have no `Is` method of their own; no callback calls `runtime.Goexit`; no registered component is named
  `__runonce_fn__`; `Name()` always gives the same name.
- Server libraries: Serve may fail at any time; `http.Server.Shutdown` makes Serve return at once; gRPC's Serve
  returns at once when GracefulStop has finished or Stop was called, and Stop ends GracefulStop at once; all of
  this also when the request came before Serve. How long requests keep Shutdown or GracefulStop waiting is free.
- Redis: a key set with a positive duration is visible until the duration is over; a duration of -1 keeps the
  expiry of a visible key; other durations set none. A call may fail with or without having taken effect.

## Model

| member | source | states |
|---|---|---|
| GoErrors.JoinIs | core/internal/lifecycle/lifecycle.go:196-201 | joining loses and invents no sentinel: it is in the join exactly when it is in a member |
| GoErrors.IsFinds | core/app.go:230-232 | errors.Is finds a target exactly when it stands somewhere in the tree, however deep |
| GoErrors.SafeCallMeans | core/internal/lifecycle/lifecycle.go:204-213 | a returned error is passed on as it is; a panic is an error that Is no sentinel |
| Invariant.NoSkip | core/internal/lifecycle/lifecycle.go:145-151 | every item has been marked running before the Stop loop, so the loop passes over none |
| Invariant.StepKeeps | core/internal/lifecycle/lifecycle.go:39-202 | one invariant over all goroutines, channels, contexts, timers and results is kept by every step of anybody |
| Invariant.Invariance | core/internal/lifecycle/lifecycle.go:39-202 | it holds in every state of every run of any number of arbitrary components |
| Engine.Remembered | core/internal/lifecycle/lifecycle.go:39-213 | what an Init, Start or Stop came back with, or the caller cancelled with, is in the state to the end of the run, a panic as its own error |
| Engine.NothingInvented | core/internal/lifecycle/lifecycle.go:39-213 | every Start and Stop outcome, Init failure and parent error in the state was given by a step of the run |
| Engine.InitFailureAborts | core/internal/lifecycle/lifecycle.go:41-48 | Inits run in index order; the first failure is the last thing done: no Start is launched, no Stop called, and the result wraps that error |
| Engine.PhaseOrder | core/internal/lifecycle/lifecycle.go:41-168 | a run past Init does all Inits in order, then launches each item once in order, then calls and sees the end of each Stop once in strictly descending order, and nothing else |
| Engine.StopDiscipline | core/internal/lifecycle/lifecycle.go:131-168 | a Stop begins only after all launches and the cancellation, with a trigger set, and after every Stop above it returned or met its deadline |
| Engine.TriggerOrigin | core/internal/lifecycle/lifecycle.go:94-141 | the trigger is the parent's error or the first failing Start result in the order of the channel, and the latter if the parent was never cancelled |
| Engine.TriggerFrozen | core/internal/lifecycle/lifecycle.go:98-105 | once written the trigger is never changed by any continuation of the run |
| Engine.ResultShape | core/internal/lifecycle/lifecycle.go:191-201 | past Init the result is the join of the trigger, what the Stop loop appended and what the drain appended, and the verdict of each turn agrees with what its Stop did |
| Engine.ResultMembers | core/internal/lifecycle/lifecycle.go:156-201 | member by member: the trigger; for each turn that did not end well, in the order of the turns, the Stop's own error wrapped once, or ErrStopTimeout if it was late; and ErrStopTimeout at the end if the drain was late |
| Engine.ResultSentinels | core/internal/lifecycle/lifecycle.go:156-201 | a sentinel is in the result exactly when it is in the trigger, in the error of a failed Stop, or is ErrStopTimeout and some Stop or the drain was late |
| Engine.StopErrorIsReported | core/internal/lifecycle/lifecycle.go:152-166 | the error that a Stop returned in the run is in the result, wrapped once, unless its turn was over before |
| Engine.NeverNil | core/internal/lifecycle/lifecycle.go:191-195 | Run never returns nil; the nil branch is dead |
| Engine.Conservation | core/internal/lifecycle/lifecycle.go:58-87 | outstanding, buffered, received and dropped results add up to n; every accepted result has its own entry on the channel, no two entries name the same goroutine, each carries that goroutine's error; and results are given up only after shutdownDone is closed |
| Engine.ChannelIsFifo | core/internal/lifecycle/lifecycle.go:54-58 | what was sent is only ever added to, at the end, and what was taken grows from the front, in any continuation |
| Engine.FailFast | core/internal/lifecycle/lifecycle.go:107-141 | Run never rests in phase 3 with a failed Start: when only components, caller and clock can move, every Start is in its body or has returned nil, and no trigger or cancellation is pending |
| Engine.SendNeverBlocks | core/internal/lifecycle/lifecycle.go:77-86 | a Start goroutine with a result finds room in the channel at any time, also after Run has returned |
| Engine.ClosedOnce | core/internal/lifecycle/lifecycle.go:118-189 | shutdownDone, drainDone and doneAll are each closed at most once in any run |
| Engine.DrainIsFinite | core/internal/lifecycle/lifecycle.go:113-129 | the drain goroutine takes at most n results, so after shutdownDone at most those it had not taken |
| Engine.BoundedShutdown | core/internal/lifecycle/lifecycle.go:143-189 | Run returns within (n + 1) * stopTimeout of the cancellation of internalCtx, whatever hangs |
| Engine.StopsInTime | core/internal/lifecycle/lifecycle.go:152-167 | a Stop is abandoned exactly at its deadline and never waited for longer |
| Deadlines.TimePassesWhen | core/internal/lifecycle/lifecycle.go:39-202 | time can pass exactly when Run is in an Init, in phase 3, in a turn whose Stop is not back, or in a drain with a Start still out, each before its deadline, and nothing is on its way between the other goroutines |
| Deadlines.Timetable | core/internal/lifecycle/lifecycle.go:143-189 | the first Stop begins at the cancellation, each other one and the drain at the end of the one before; each is given up exactly stopTimeout after its beginning and never waited for longer |
| Deadlines.PromptStopCounts | core/internal/lifecycle/lifecycle.go:156-166 | a Stop that is back before its deadline is never reported as late, but by what it came back with |
| Deadlines.PromptDrainCounts | core/internal/lifecycle/lifecycle.go:170-183 | if all Starts are back before the deadline of the drain, no drain entry appears |
| Deadlines.EitherBranch | core/internal/lifecycle/lifecycle.go:82-85 | each select takes either branch when both are ready |
| Engine.NoDeadlock | core/internal/lifecycle/lifecycle.go:41-189 | an unreturned run can go on by itself, or is in a user's Init, in phase 3 with no trigger, a live parent and no failed Start, or before a pending timer |
| Termination.StepBurns | core/internal/lifecycle/lifecycle.go:39-202 | every step but a tick of the clock lowers a natural measure |
| Termination.StepsAreBounded | core/internal/lifecycle/lifecycle.go:39-202 | a run of n items has at most 14n + 13 steps besides the ticks |
| Termination.ShutdownEnds | core/internal/lifecycle/lifecycle.go:131-202 | after the cancellation every schedule longer than 14n + 13 + (n + 1) * stopTimeout steps and ticks has seen Run return |
| Termination.ShutdownGoesOn | core/internal/lifecycle/lifecycle.go:131-202 | and until then there is always a step that needs no component and no caller |
| Phases.TriggerCell.SetTrigger | core/internal/lifecycle/lifecycle.go:94-105 | the first error wins and cancels, exactly as in the transition system |
| Phases.InitLoop | core/internal/lifecycle/lifecycle.go:41-48 | the loop stops at the first failing Init, having called exactly the Inits up to it in order |
| Phases.LaunchLoop | core/internal/lifecycle/lifecycle.go:66-87 | every item is marked running, in index order |
| Phases.AwaitStop | core/internal/lifecycle/lifecycle.go:152-167 | the select of one turn: the result if it is there before the deadline, the deadline otherwise, and what each appends to stopErrs |
| Phases.TurnMeaning | core/internal/lifecycle/lifecycle.go:152-167 | a turn is over by its deadline, expires exactly when its Stop is not back by then, and otherwise reports what the Stop came back with |
| Phases.StopLoop | core/internal/lifecycle/lifecycle.go:143-168 | turns go down over the running items, each begun when the one before it was over, with one entry for each failed or expired one in that order |
| Phases.TurnsOfAll | core/internal/lifecycle/lifecycle.go:143-168 | with all items running the events of the loop are those that the transition system prescribes |
| Phases.TurnsAreAll | core/internal/lifecycle/lifecycle.go:143-168 | and there is one turn per item in descending order, each begun at the end of the one before, all over within n times stopTimeout |
| Phases.AggregateErrors | core/internal/lifecycle/lifecycle.go:191-201 | nil exactly when trigger and Stop errors are all nil; otherwise exactly the trigger, if any, followed by the Stop errors in order, with every sentinel of theirs and no other |
| AppVerdict.StripCanceled | core/app.go:225-244 | the loop of withoutCanceled computes the function the next rows are about |
| AppVerdict.KeepsOrder | core/app.go:228-238 | exactly the non-nil members that are not Canceled are kept, in their order; none left means nil |
| AppVerdict.SentinelSurvives | core/app.go:228-238 | another sentinel is in the result exactly when some top-level member is not Canceled and carries it |
| AppVerdict.SentinelLost | core/app.go:228-238 | a real error is lost exactly when every top-level member carrying it is also Canceled |
| AppVerdict.LostFailure | core/app.go:228-238 | such an input: the engine's result for a Start that failed with a cancellation joined to a real error is dropped whole |
| Witness.FailureCanBeStripped | core/app.go:137-147 | a reachable run with that result: a Start fails with a real error that is also Canceled, it is the trigger, and App.Run returns nil |
| AppVerdict.UnchangedWhen | core/app.go:222-244 | the argument comes back unchanged exactly when it has nothing to drop |
| AppVerdict.NeverCanceled | core/app.go:225-244 | the result never Is Canceled, for any error tree |
| AppVerdict.Idempotent | core/app.go:225-244 | stripping twice is stripping once |
| AppVerdict.RunVerdict | core/app.go:137-147 | App.Run gives nil exactly when Init gave up with a cancellation, or the trigger Is Canceled, every Stop returned nil or a cancellation, and nothing timed out |
| AppVerdict.RunSentinels | core/app.go:137-147 | a sentinel other than Canceled is in the result of App.Run exactly when it is in a trigger that is no cancellation, in the error of a failed Stop that is none, or is ErrStopTimeout and some Stop or the drain was late |
| AppVerdict.InitErrorSentinels | core/app.go:137-147 | after a failed Init, exactly when Init's error carries it and is no cancellation |
| AppVerdict.NilLeaksNothing | core/app.go:128-147 | nil from a run past Init means that all Start and Stop goroutines have returned and the helpers are gone |
| AppVerdict.CleanShutdownIsNil | core/app.go:131-136 | if parent, delivered Start results and Stops are nil or cancellations and the drain is in time, the result is nil |
| AppVerdict.NonNilMeans | core/app.go:131-136 | a completed run gives non-nil exactly when some Stop failed with more than a cancellation or was late, the drain was late, or the error that won (the caller's, or that of the first Start to fail) is no cancellation |
| AppVerdict.VerdictWithoutFailures | core/app.go:131-136 | when no delivered Start result is an error: nil exactly when the caller's error is a cancellation, every Stop was clean and the drain in time |
| Witness.DeadlineIsReported | core/app.go:131-147 | a reachable run with no failed Start or Stop and no timeout whose result carries the caller's context.DeadlineExceeded |
| Witness.StartErrorCanBeDropped | core/internal/lifecycle/lifecycle.go:98-128 | for any error, a reachable run in which a Start fails with it and App.Run returns nil |
| RunOnce.PublishedIsCaptured | core/app.go:189-206 | what fn published before RunOnce looks is what RunOnce sees, however the run goes on |
| RunOnce.FnRemembered | core/app.go:187-194 | the error that fn returned in the run, or its panic, is what the state says to the end |
| RunOnce.FnNotInvented | core/app.go:187-201 | and it says nothing that fn did not; the run context ended with Canceled unless the caller gave another error |
| RunOnce.FnErrorSurvives | core/app.go:189-219 | if fn returned an error, even Canceled, and published it before RunOnce looks, the result Is that error |
| RunOnce.SeenWhen | core/app.go:187-206 | RunOnce reads what an fn that returned gave back if the drain was in time or fn returned before the drain's deadline, and reads nothing if fn returned after it; the deadline is no sooner than stopTimeout after the cancellation |
| RunOnce.FnErrorReported | core/app.go:155-158 | in the first case, and whenever fn returned within stopTimeout of the cancellation, the result Is the error that fn returned in the run, even Canceled |
| RunOnce.LateFnIsIgnored | core/app.go:203-219 | in the second case the result is what Run would have returned |
| Witness.FnErrorCanBeLost | core/app.go:187-219 | a reachable run in which fn returns an error before the engine returns, at the tick of the drain's deadline, and the result is without it |
| Witness.FnErrorCanBeSaved | core/app.go:187-219 | a reachable run with the same times in which the result has it |
| RunOnce.FnIsSeen | core/app.go:187-206 | unless the drain timed out, an fn that returned has been seen, with its own error |
| RunOnce.OnceVerdict | core/app.go:203-219 | nil exactly when Run would give nil and no error of fn was seen |
| RunOnce.OnceKeepsBoth | core/app.go:211-219 | a sentinel is in the result exactly when it is in fn's error or in the stripped error of the engine |
| RunOnce.NilMeans | core/app.go:179-219 | nil means that fn returned nil in the run, or Init gave up with a cancellation, or fn panicked after a cancellation had won |
| RunOnce.CleanOnceIsNil | core/app.go:155-158 | if fn returned nil, nobody cancelled but with Canceled, no delivered Start result is a real error, every Stop was clean and the drain in time, the result is nil |
| RunOnce.FnItemStopsClean | core/app.go:199 | the turn of fn's own item never fails and, with a positive timeout, never expires |
| RunOnce.FnEndsTheRun | core/app.go:154-155 | however fn ends, by an error, nil or a panic, the engine returns and RunOnce reads its result within (n + 1) * stopTimeout of that moment |
| RunOnce.OnceEnds | core/app.go:154-155 | once fn has ended, every schedule longer than 14n + 17 + (n + 1) * stopTimeout steps and ticks has seen RunOnce read its result |
| RunOnce.OnceGoesOn | core/app.go:179-219 | and until then RunOnce can go on by itself, or time can pass towards a pending timer |
| RunOnce.StopsAfterFn | core/app.go:185-201 | no Stop begins before fn has returned unless the caller or a signal cancelled or some Start failed; fn's item is stopped first |
| Registration.App.Register | core/app.go:114-126 | one critical section: refused when started, else when the name is taken, else both fields grow |
| Registration.App.MarkStarted | core/app.go:246-254 | one critical section: refused when started, else started |
| Registration.App.BuildItems | core/app.go:263-277 | one item per component, in order, with Init only for initializers |
| Registration.AlwaysConsistent | core/app.go:114-126 | in every interleaving names is the set of the components' names, without duplicates |
| Registration.RegisterSucceeds | core/app.go:114-126 | a Register succeeds exactly when no start and no attempt at its name came before it in lock order, and the error says which |
| Registration.OneRunner | core/app.go:246-254 | exactly the first caller of Run or RunOnce passes |
| Registration.RunnerSeesAll | core/app.go:137-147 | the list the runner copies later is exactly the successful Registers of the whole run in lock order |
| Signals.StopWaitsForWatcher | core/internal/signals/signals.go:36-45 | every stop call that returned, concurrent ones included, finds the watcher gone, done closed, the handler off and the context cancelled |
| Signals.WatcherRunsOnce | core/internal/signals/signals.go:26-34 | done is closed at most once, the select is left once, and a taken signal leads to exactly one cancel |
| Signals.SignalCancels | core/internal/signals/signals.go:26-34 | once a signal was delivered and the program has nothing left to do by itself, the context is cancelled and the watcher gone |
| Signals.CancelEndsWatcher | core/internal/signals/signals.go:26-34 | the same for a context that ends for any other reason |
| Signals.CancelHasCause | core/internal/signals/signals.go:19-45 | a cancelled context was cancelled from outside, by a signal, or by a stop |
| Signals.NoSignalAfterStop | core/internal/signals/signals.go:36-45 | after a stop has returned no signal is delivered any more |
| Signals.StopProgresses | core/internal/signals/signals.go:36-45 | while a caller is in stop, the watcher or a caller can go on |
| Signals.OwnStepsRunOut | core/internal/signals/signals.go:19-45 | each step of the watcher or of a caller lowers a natural measure |
| Signals.StopComesBack | core/internal/signals/signals.go:19-45 | so they take at most 6 * callers + 3 steps in any schedule, and once none is left to take every call of stop has returned |
| Servers.BodyGoesOn | components/grpcserver/server.go:140-188 | after the cancellation a Start body of any kind has an enabled step of its own item (Start, Stop or Serve), once its Stop was called and, for gRPC, is not waiting for open requests with time left |
| Servers.WhoIsLeft | components/httpserver/server.go:68-104 | whenever time passes after the cancellation, the only Starts still to return are those of servers whose Stop was not called yet, and of a gRPC server inside its Stop with time left |
| Servers.ServeEndIsReported | components/httpserver/server.go:68-93 | whatever error Serve ended with in the run, Start, once it took it, returns nil exactly for a closed server and otherwise an error with exactly its sentinels, and that is the engine's result of the Start; for both servers |
| Servers.DeadServerIsNoticed | components/grpcserver/server.go:140-160 | after a Serve that ended with any other error than a closed server the composition never rests in phase 3 |
| Servers.NothingMadeUp | components/pgxpool/pool.go:81-84 | a context waiter's Start returns nil and only after the cancellation; what a server's Start took is how its Serve ended; http's Stop returns what Shutdown returned or its context's error |
| Servers.StopIsReported | components/httpserver/server.go:95-104 | what Shutdown returned in the run is what http's Stop returns, and what a server's Stop returns is what the engine sees |
| Servers.SysTimePassesWhen | components/grpcserver/server.go:140-188 | time can pass exactly when it can for the engine and every item waits for somebody else: a serving server, an open request or a Stop with time left never hold the clock, everything else does |
| Servers.GrpcStopMeans | components/grpcserver/server.go:168-188 | gRPC's Stop returns nil exactly when GracefulStop finished without being forced, its context's error otherwise, and never before GracefulStop finished |
| Servers.SysNeverStuck | components/grpcserver/server.go:140-188 | after the cancellation engine and components rest only inside one Stop before its deadline, and never while Run waits for the Start goroutines |
| Servers.SysStepBurns | components/grpcserver/server.go:140-188 | every step of the composition but a tick lowers a natural measure, so the clock is never blocked for ever |
| Servers.SysShutdownEnds | core/internal/lifecycle/lifecycle.go:131-202 | after the cancellation every schedule of the composition longer than 27n + 13 + (n + 1) * stopTimeout has seen Run return with every Start exited and no drain timeout |
| Servers.NoStartIsLeft | core/internal/lifecycle/lifecycle.go:170-183 | with a positive timeout and any mix of context waiters, gRPC and http servers, the drain never times out, its entry never appears, and at the return every Start has returned |
| SqlComment.EscapingIsPercentEncoding | adapters/otelpgx/sqlcomment.go:27-32 | QueryEscape and the rewriting of + are one-pass percent-encoding with the unreserved set of RFC 3986 |
| SqlComment.UnreservedAre | adapters/otelpgx/sqlcomment.go:27-32 | the unreserved set, byte by byte |
| SqlComment.OctetsAreUpper | adapters/otelpgx/sqlcomment.go:27-32 | every octet is written with upper-case digits, section 2.1 of RFC 3986 |
| SqlComment.SortChangesNothing | adapters/otelpgx/sqlcomment.go:33-39 | the pairs are sorted before sort.Strings is called, so any sort leaves them as they are |
| SqlComment.EncodeComment | adapters/otelpgx/sqlcomment.go:25-45 | the statements of encode, with the sort, compute the printer the next rows are about |
| SqlComment.OmittedWhen | adapters/otelpgx/sqlcomment.go:36-38 | no comment exactly when all three fields are empty |
| SqlComment.PlainFormat | adapters/otelpgx/sqlcomment.go:15-45 | the text of the comment, for all values that need no escaping |
| SqlComment.CommentRoundTrip | adapters/otelpgx/sqlcomment.go:25-45 | parsing inverts printing for all byte-string fields, an absent field read as empty |
| SqlComment.StatementFollows | adapters/otelpgx/options.go:67-74 | the statement follows the comment, and is alone exactly as given without fields |
| SqlComment.FirstClose | adapters/otelpgx/options.go:67-74 | in front of any SQL the first end of a comment is the end of the prefix |
| SqlComment.CutRecovers | adapters/otelpgx/options.go:67-74 | cutting there gives back the fields and the original statement |
| SqlComment.TraceparentRoundTrip | adapters/otelpgx/extract.go:22-28 | a traceparent is 55 bytes, is read back field by field, and is fixed by the escaping |
| SqlComment.TraceparentOmittedWhen | adapters/otelpgx/extract.go:22-28 | there is none exactly for an invalid span context |
| SqlComment.TraceparentIsLow | adapters/otelpgx/extract.go:22-28 | it is written with lower-case digits only |
| RedisHook.Hook.Record | adapters/otelredis/hook.go:53-68 | one sample per command, a hit or miss only for a GET without a real error |
| RedisHook.RecordedMeans | adapters/otelredis/hook.go:53-68 | a sample that is an error unless the error is nil or redis.Nil; for a GET a hit without an error, a miss with redis.Nil, neither otherwise |
| RedisHook.Hook.ProcessPipeline | adapters/otelredis/hook.go:76-93 | the loop over the batch computes the metrics and the span the next rows are about |
| RedisHook.BatchIsAccounted | adapters/otelredis/hook.go:53-132 | one sample per command in order, an error exactly when the command has an error of its own other than redis.Nil, or no command has one and the aggregate is one; every GET is a hit, a miss or failed: a hit exactly when it has no error and the batch did not fail as a whole, a miss exactly with a redis.Nil of its own |
| RedisHook.SpanErrMeaning | adapters/otelredis/hook.go:95-109 | the span fails exactly when the aggregate or some command has an error other than redis.Nil |
| RedisHook.SpanErrIsFirst | adapters/otelredis/hook.go:95-109 | the error it records is the first of a command other than redis.Nil, and the aggregate if there is none |
| RedisHook.FailureMarksSpan | adapters/otelredis/hook.go:95-132 | a command recorded as failed implies a failed span |
| RedisHook.SpanWithoutFailure | adapters/otelredis/hook.go:95-132 | exactly when a failed span comes without a failed command |
| RedisHook.SpanAgreesWithSamples | adapters/otelredis/hook.go:95-132 | for a non-empty batch whose aggregate is the first command error, or without command errors, the two agree |
| RedisHook.SpanCanDisagree | adapters/otelredis/hook.go:95-132 | an aggregate outside that contract on which they differ |
| RedisCache.Cache.Get | components/rediscache/cache.go:66-77 | the method gives the reply the next rows are about and changes nothing |
| RedisCache.Cache.Set | components/rediscache/cache.go:79-83 | the store and the error the next rows are about |
| RedisCache.Cache.Delete | components/rediscache/cache.go:85-96 | the same for the loop of Delete; without keys the client is not called |
| RedisCache.SetStores | components/rediscache/cache.go:49-83 | Set changes one entry, under the prefix and a colon or under the bare key, with its value and expiry for every duration, the default and -1 included |
| RedisCache.DeleteRemoves | components/rediscache/cache.go:85-96 | Delete removes exactly the entries of its keys |
| RedisCache.FaultsAreReported | components/rediscache/cache.go:66-96 | the client's error is what each call returns, except redis.Nil for Get and a Delete without keys; an error without effect leaves the store as it was |
| RedisCache.SetThenGet | components/rediscache/cache.go:58-83 | a value is found until its own or the default time to live is over |
| RedisCache.DeleteThenGet | components/rediscache/cache.go:66-96 | deleted keys are missing, others untouched, and an error is passed on as not found |
| RedisCache.CollisionWhen | components/rediscache/cache.go:49-56 | two caches can reach the same key exactly when one namespace begins with the other |
| RedisCache.PlainPrefixesAreApart | components/rediscache/cache.go:49-56 | distinct non-empty prefixes without a colon exclude that |
| RedisCache.CallSparesOthers | components/rediscache/cache.go:66-96 | a call of one cache leaves all keys and expiries of the others as they were |
| RedisCache.SharingIsInvisible | components/rediscache/cache.go:51-96 | any interleaved run on one Redis, with expiry and faults, gets the replies of caches with a Redis each |
| RedisCache.CachesAreIndependent | components/rediscache/cache.go:51-96 | in particular any caches with distinct non-empty colon-free prefixes, from an empty Redis, for any calls at any times |
| RedisCache.ApartIsNeeded | components/rediscache/cache.go:51-96 | two caches are independent for all runs exactly when they are apart |

## Left out

- The goroutines of `lifecycle.Run`, of `signals.Trap` and of the two servers are modelled on values, as transition
  systems, and not as methods that update shared variables; that two goroutines never touch an unguarded variable
  at once is not captured.
- Memory effects below the level of channel operations, mutexes and contexts, and fair scheduling of goroutines:
  the measure shows that no schedule is infinite, so no fairness is needed.
- RunOnce.FnErrorReported: does not hold of an fn that returns at or after the drain's deadline when the drain times
  out; RunOnce.LateFnIsIgnored and the two runs of Witness say what happens then.
- Error texts, component names in errors, stack traces and wall-clock durations.
- Init of the servers, health service, interceptors, connection options, and errors of Listen.
- Servers.NoStartIsLeft: does not cover components of other kinds, for which Start may outlive the timeout.
- Reuse of an `App` after its run, which `markStarted` refuses.
- `signals.Trap` without signals, which does nothing, `WithSignals` and the other option constructors, loggers, `Detach`, `otelinit`, gRPC client, example programs.
- `rediscache/invalidation.go`: a filter over decoded messages whose codec is a library's.
- Spans and metrics beyond counters and the error flag; the tracer call in `config.before`.
- Redis commands other than GET, SET and DEL, eviction, and writers other than the caches.
