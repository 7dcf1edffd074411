/** App.Register, markStarted and buildItems of core/app.go: the guarded fields as a class, and every
    interleaving of concurrent callers as a sequence of critical sections in lock order.

    A component is its name, which is taken to be stable, an identity, and whether it has an Init. */
module Registration {
  import opened GoErrors

  datatype Component = Component(name: string, id: nat, initializer: bool)

  /** lifecycle.Item, with the identity of the component standing for its Start and Stop. */
  datatype Item = Item(name: string, id: nat, hasInit: bool)

  datatype Fields = Fields(components: seq<Component>, names: set<string>, started: bool)

  /** One critical section of a.mu. */
  datatype Section = Register(c: Component) | MarkStarted | CopyComponents

  function ErrorOf(f: Fields, s: Section): Error {
    match s
    case Register(c) =>
      if f.started then ALREADY_STARTED else if c.name in f.names then Wrap(DUPLICATE) else Nil
    case MarkStarted => if f.started then ALREADY_STARTED else Nil
    case CopyComponents => Nil
  }

  function After(f: Fields, s: Section): Fields {
    if ErrorOf(f, s) != Nil then f
    else
      match s
      case Register(c) => f.(components := f.components + [c], names := f.names + {c.name})
      case MarkStarted => f.(started := true)
      case CopyComponents => f
  }

  class App {
    var components: seq<Component>
    var names: set<string>
    var started: bool

    ghost function View(): Fields
      reads this
    {
      Fields(components, names, started)
    }

    constructor ()
      ensures View() == Fields([], {}, false)
    {
      components, names, started := [], {}, false;
    }

    method Register(c: Component) returns (err: Error)
      modifies this
      ensures err == ErrorOf(old(View()), Section.Register(c))
      ensures View() == After(old(View()), Section.Register(c))
    {
      if started { return ALREADY_STARTED; }
      if c.name in names { return Wrap(DUPLICATE); }
      names := names + {c.name};
      components := components + [c];
      return Nil;
    }

    method MarkStarted() returns (err: Error)
      modifies this
      ensures err == ErrorOf(old(View()), Section.MarkStarted)
      ensures View() == After(old(View()), Section.MarkStarted)
    {
      if started { return ALREADY_STARTED; }
      started := true;
      return Nil;
    }

    /** The copy is made under the lock, the items outside it. */
    method BuildItems() returns (items: seq<Item>)
      ensures |items| == |components|
      ensures forall i | 0 <= i < |items| ::
        && items[i].name == components[i].name && items[i].id == components[i].id
        && (items[i].hasInit <==> components[i].initializer)
    {
      var cs := components;
      items := [];
      for i := 0 to |cs|
        invariant |items| == i
        invariant forall j | 0 <= j < i :: items[j] == Item(cs[j].name, cs[j].id, cs[j].initializer)
      {
        items := items + [Item(cs[i].name, cs[i].id, cs[i].initializer)];
      }
    }
  }

  // ---------- every interleaving ----------

  const FRESH := Fields([], {}, false)

  function AfterAll(run: seq<Section>): Fields {
    if run == [] then FRESH else After(AfterAll(run[..|run| - 1]), run[|run| - 1])
  }

  /** Whether the i-th critical section of the run came back with nil. */
  predicate Succeeds(run: seq<Section>, i: nat)
    requires i < |run|
  {
    ErrorOf(AfterAll(run[..i]), run[i]) == Nil
  }

  /** The components of the Registers that succeeded, in lock order. */
  function Accepted(run: seq<Section>): seq<Component> {
    if run == [] then []
    else
      var last := |run| - 1;
      Accepted(run[..last])
      + (if run[last].Register? && Succeeds(run, last) then [run[last].c] else [])
  }

  ghost predicate DistinctNames(cs: seq<Component>) {
    forall i, j | 0 <= i < j < |cs| :: cs[i].name != cs[j].name
  }

  ghost predicate Consistent(f: Fields) {
    && (forall name :: name in f.names <==> exists i | 0 <= i < |f.components| :: f.components[i].name == name)
    && DistinctNames(f.components)
  }

  /** `names` is the set of names in `components`, without duplicates, at every moment. */
  lemma {:induction false} AlwaysConsistent(run: seq<Section>)
    ensures Consistent(AfterAll(run))
  {
    if run != [] {
      var last := |run| - 1;
      AlwaysConsistent(run[..last]);
      var f, f' := AfterAll(run[..last]), AfterAll(run);
      if f'.components != f.components {
        var c := run[last].c;
        assert f'.components == f.components + [c];
        forall name ensures name in f'.names <==> exists i | 0 <= i < |f'.components| :: f'.components[i].name == name {
          if name == c.name { assert f'.components[|f.components|].name == name; }
          if i :| 0 <= i < |f.components| && f.components[i].name == name { assert f'.components[i].name == name; }
        }
      }
    }
  }

  lemma {:induction false} FieldsAre(run: seq<Section>)
    ensures AfterAll(run).components == Accepted(run)
    ensures AfterAll(run).started <==> MarkStarted in run
    ensures !AfterAll(run).started ==>
      forall name :: name in AfterAll(run).names <==> exists i | 0 <= i < |run| :: run[i].Register? && run[i].c.name == name
  {
    if run != [] {
      var last := |run| - 1;
      var before := run[..last];
      FieldsAre(before);
      assert run == before + [run[last]];
      assert AfterAll(run).started ==> MarkStarted in run;
      if MarkStarted in run { assert MarkStarted in before || run[last] == MarkStarted; }
      if !AfterAll(run).started {
        forall name
          ensures name in AfterAll(run).names <==> exists i | 0 <= i < |run| :: run[i].Register? && run[i].c.name == name
        {
          if i :| 0 <= i < |run| && run[i].Register? && run[i].c.name == name {
            if i < last { assert before[i] == run[i]; }
          }
          if i :| 0 <= i < |before| && before[i].Register? && before[i].c.name == name { assert run[i] == before[i]; }
          if run[last].Register? && run[last].c.name == name { assert run[last].c.name == name; }
        }
      }
    }
  }

  /** A Register succeeds exactly when nobody has started the App and nobody has tried its name before,
      and otherwise says which of the two it was. */
  lemma RegisterSucceeds(run: seq<Section>, i: nat)
    requires i < |run| && run[i].Register?
    ensures Succeeds(run, i) <==>
      && MarkStarted !in run[..i]
      && forall j | 0 <= j < i && run[j].Register? :: run[j].c.name != run[i].c.name
    ensures !Succeeds(run, i) ==>
      ErrorOf(AfterAll(run[..i]), run[i]) == if MarkStarted in run[..i] then ALREADY_STARTED else Wrap(DUPLICATE)
  {
    FieldsAre(run[..i]);
    var f := AfterAll(run[..i]);
    if !f.started && run[i].c.name in f.names {
      var j :| 0 <= j < i && run[..i][j].Register? && run[..i][j].c.name == run[i].c.name;
      assert run[j] == run[..i][j];
    }
    if j :| 0 <= j < i && run[j].Register? && run[j].c.name == run[i].c.name {
      assert run[..i][j] == run[j];
    }
  }

  /** Of all the callers of Run and RunOnce exactly one, the first, gets past markStarted. */
  lemma OneRunner(run: seq<Section>, i: nat)
    requires i < |run| && run[i].MarkStarted?
    ensures Succeeds(run, i) <==> MarkStarted !in run[..i]
    ensures !Succeeds(run, i) ==> ErrorOf(AfterAll(run[..i]), run[i]) == ALREADY_STARTED
  {
    FieldsAre(run[..i]);
  }

  lemma {:induction false} FrozenAfterMark(run: seq<Section>, i: nat)
    requires i <= |run| && MarkStarted in run[..i]
    ensures Accepted(run) == Accepted(run[..i])
  {
    if i == |run| {
      assert run[..i] == run;
    } else {
      var last := |run| - 1;
      assert run[..last][..i] == run[..i];
      FrozenAfterMark(run[..last], i);
      FieldsAre(run[..last]);
      assert MarkStarted in run[..last] by {
        var k :| 0 <= k < i && run[..i][k] == MarkStarted;
        assert run[..last][k] == MarkStarted;
      }
    }
  }

  lemma SameAsAtMark(run: seq<Section>, i: nat, j: nat)
    requires i < j <= |run| && run[i].MarkStarted?
    ensures Accepted(run[..j]) == Accepted(run[..i])
  {
    assert run[..j][..i + 1] == run[..i + 1];
    assert run[..i + 1][i] == MarkStarted;
    assert run[..i + 1][..i] == run[..i];
    FrozenAfterMark(run[..j], i + 1);
  }

  /** The runner's list, copied in a later critical section j, is exactly the successful Registers of the
      whole run in lock order: nothing slips into the gap after markStarted at i, or after the copy. */
  lemma RunnerSeesAll(run: seq<Section>, i: nat, j: nat)
    requires i < j < |run| && run[i].MarkStarted? && run[j].CopyComponents?
    ensures AfterAll(run[..j]).components == Accepted(run[..i]) == Accepted(run)
  {
    assert AfterAll(run[..j]).components == Accepted(run[..j]) by { FieldsAre(run[..j]); }
    SameAsAtMark(run, i, j);
    SameAsAtMark(run, i, |run|);
    assert run[..|run|] == run;
  }
}
