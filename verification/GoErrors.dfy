/** Go error values and `errors.Is`, seen as trees.

    `Nil` is the nil interface value, so that every place where micra handles a nil
    error, nil members of a joined error included, is represented. */
module GoErrors {

  datatype Error =
    | Nil
    | Leaf(id: nat)                // errors.New: one value per identity
    | Panic                        // safeCall's rendering of a panic: wraps nothing
    | Wrap(inner: Error)           // fmt.Errorf with one %w
    | Multi(members: seq<Error>)   // errors.Join, or any error with Unwrap() []error

  const CANCELED := Leaf(0)            // context.Canceled
  const STOP_TIMEOUT := Leaf(1)        // lifecycle.ErrStopTimeout
  const ALREADY_STARTED := Leaf(2)     // core.ErrAppAlreadyStarted
  const DUPLICATE := Leaf(3)           // core.ErrDuplicateComponent
  const SERVER_CLOSED := Leaf(4)       // grpc.ErrServerStopped and http.ErrServerClosed
  const REDIS_NIL := Leaf(5)           // redis.Nil
  const DEADLINE_EXCEEDED := Leaf(6)   // context.DeadlineExceeded

  /** The search of `errors.Is` once both arguments are known to be non-nil. */
  predicate Reaches(e: Error, target: Error) {
    e == target ||
    match e
    case Wrap(inner) => Reaches(inner, target)
    case Multi(members) => exists i | 0 <= i < |members| :: Reaches(members[i], target)
    case _ => false
  }

  /** `errors.Is(e, target)`. */
  predicate Is(e: Error, target: Error) {
    if e.Nil? || target.Nil? then e == target else Reaches(e, target)
  }

  /** Where a path of member numbers leads inside an error, if anywhere; what a wrap holds is its member 0. */
  function Walk(e: Error, path: seq<nat>): Error {
    if path == [] then e
    else
      match e
      case Wrap(inner) => if path[0] == 0 then Walk(inner, path[1..]) else Nil
      case Multi(members) => if path[0] < |members| then Walk(members[path[0]], path[1..]) else Nil
      case _ => Nil
  }

  lemma {:induction false} WalkReaches(e: Error, path: seq<nat>)
    requires !Walk(e, path).Nil?
    ensures Reaches(e, Walk(e, path))
  {
    if path != [] {
      if e.Wrap? { WalkReaches(e.inner, path[1..]); }
      if e.Multi? { WalkReaches(e.members[path[0]], path[1..]); }
    }
  }

  lemma {:induction false} ReachesWalk(e: Error, target: Error) returns (path: seq<nat>)
    requires Reaches(e, target)
    ensures Walk(e, path) == target
  {
    if e == target {
      path := [];
    } else if e.Wrap? {
      var rest := ReachesWalk(e.inner, target);
      path := [0] + rest;
    } else {
      var i :| 0 <= i < |e.members| && Reaches(e.members[i], target);
      var rest := ReachesWalk(e.members[i], target);
      path := [i] + rest;
    }
  }

  /** `Is` finds a target exactly when it stands somewhere in the tree, however deep. */
  lemma IsFinds(e: Error, target: Error)
    requires !target.Nil?
    ensures Is(e, target) <==> exists path: seq<nat> :: Walk(e, path) == target
  {
    if Is(e, target) {
      var path := ReachesWalk(e, target);
    }
    if path: seq<nat> :| Walk(e, path) == target { WalkReaches(e, path); }
  }

  /** What a user callback does when it comes back at all. */
  datatype Call = Returned(err: Error) | Panicked

  /** lifecycle.safeCall: a panic becomes an error that wraps nothing. */
  function SafeCall(call: Call): Error {
    match call
    case Returned(err) => err
    case Panicked => Panic
  }

  /** An error that is returned is passed on as it is; a panic is an error, and none that anybody looks for. */
  lemma SafeCallMeans(call: Call, t: Error)
    ensures call.Returned? ==> SafeCall(call) == call.err
    ensures call.Panicked? && t.Leaf? ==> SafeCall(call) != Nil && !Is(SafeCall(call), t)
  {
  }

  function NonNil(es: seq<Error>): (kept: seq<Error>)
    ensures |kept| <= |es|
    ensures forall e :: e in kept <==> e in es && e != Nil
  {
    if es == [] then []
    else (if es[0].Nil? then [] else [es[0]]) + NonNil(es[1..])
  }

  /** `errors.Join`: nil members are dropped, and nothing left means nil. */
  function Join(es: seq<Error>): Error {
    var kept := NonNil(es);
    if kept == [] then Nil else Multi(kept)
  }

  lemma {:induction false} NonNilOfClean(es: seq<Error>)
    requires Nil !in es
    ensures NonNil(es) == es
  {
    if es != [] {
      assert es[0] in es;
      NonNilOfClean(es[1..]);
    }
  }

  /** Joining loses no error: a sentinel is found in the join exactly when it is found in some member. */
  lemma JoinIs(es: seq<Error>, target: Error)
    requires !target.Nil? && !target.Multi?
    ensures Is(Join(es), target) <==> exists i | 0 <= i < |es| :: Is(es[i], target)
  {
    var kept := NonNil(es);
    if Is(Join(es), target) {
      var j :| 0 <= j < |kept| && Reaches(kept[j], target);
      assert kept[j] in es;
      var i :| 0 <= i < |es| && es[i] == kept[j];
      assert Is(es[i], target);
    }
    if i :| 0 <= i < |es| && Is(es[i], target) {
      assert es[i] in kept;
      var j :| 0 <= j < |kept| && kept[j] == es[i];
      assert Reaches(kept[j], target);
    }
  }
}
