// The per-request state: a reference-counted context bound to the request's thread, holding
// the stack of filter chains being evaluated, to all of which a cache dependency fans out.

module RequestContext {
  import opened Wrappers
  import FC = FilterChain
  import FCD = FileCacheDependency

  class RequestContext {
    /** The number of enter calls not yet matched by exit. */
    var refCount: int
    /** The stack of active chains: index 0 the oldest, the last the current one. */
    var activeFilterChains: seq<FC.FilterChain>

    constructor ()
      ensures refCount == 0 && activeFilterChains == []
    {
      refCount := 0;
      activeFilterChains := [];
    }

    /** getCurrentFilterChain: the top of the stack; IllegalStateException when empty. */
    method GetCurrentFilterChain() returns (r: Result<FC.FilterChain>)
      ensures activeFilterChains == [] <==> r == Err(IllegalState)
      ensures r.Ok? ==> r.value == activeFilterChains[|activeFilterChains| - 1]
    {
      if |activeFilterChains| == 0 {
        return Err(IllegalState);
      }
      r := Ok(activeFilterChains[|activeFilterChains| - 1]);
    }

    /** pushActiveFilterChain. */
    method PushActiveFilterChain(fc: FC.FilterChain)
      modifies this
      ensures activeFilterChains == old(activeFilterChains) + [fc] && refCount == old(refCount)
    {
      activeFilterChains := activeFilterChains + [fc];
    }

    /** popActiveFilterChain: removes and returns the top; IllegalStateException when empty. */
    method PopActiveFilterChain() returns (r: Result<FC.FilterChain>)
      modifies this
      ensures refCount == old(refCount)
      ensures old(activeFilterChains) == [] ==> r == Err(IllegalState) && activeFilterChains == []
      ensures old(activeFilterChains) != [] ==>
        r.Ok? && old(activeFilterChains) == activeFilterChains + [r.value]
    {
      if |activeFilterChains| == 0 {
        return Err(IllegalState);
      }
      var top := activeFilterChains[|activeFilterChains| - 1];
      activeFilterChains := activeFilterChains[..|activeFilterChains| - 1];
      r := Ok(top);
    }

    /**
     * addDependency: the dependency joins the set of every active chain; nothing else of
     * the chains changes.
     */
    method AddDependency(d: FCD.FileCacheDependency)
      modifies set fc | fc in activeFilterChains
      ensures forall fc :: fc in activeFilterChains ==>
        fc.dependencies == FC.WithDependency(old(fc.dependencies), d)
      ensures forall fc :: fc in activeFilterChains ==>
        fc.filters == old(fc.filters) && fc.current == old(fc.current)
    {
      var i := 0;
      while i < |activeFilterChains|
        invariant 0 <= i <= |activeFilterChains|
        invariant forall fc :: fc in activeFilterChains[..i] ==>
          fc.dependencies == FC.WithDependency(old(fc.dependencies), d)
        invariant forall fc :: fc in activeFilterChains && fc !in activeFilterChains[..i] ==>
          fc.dependencies == old(fc.dependencies)
        invariant forall fc :: fc in activeFilterChains ==>
          fc.filters == old(fc.filters) && fc.current == old(fc.current)
      {
        var fc := activeFilterChains[i];
        FC.WithDependencyIdempotent(old(fc.dependencies), d);
        fc.AddDependency(d);
        assert activeFilterChains[..i + 1] == activeFilterChains[..i] + [fc];
        i := i + 1;
      }
      assert activeFilterChains[..i] == activeFilterChains;
    }
  }

  /** The thread a request runs on, with its INSTANCE slot. */
  class RequestThread {
    var instance: Option<RequestContext>

    /** A bound context has an enter outstanding. */
    ghost predicate Valid()
      reads this, if instance.Some? then {instance.value} else {}
    {
      instance.Some? ==> instance.value.refCount >= 1
    }

    constructor ()
      ensures Valid() && instance.None?
    {
      instance := None;
    }

    /** getInstance: the bound context; IllegalStateException when none is bound. */
    method GetInstance() returns (r: Result<RequestContext>)
      ensures instance.None? <==> r == Err(IllegalState)
      ensures instance.Some? ==> r == Ok(instance.value)
    {
      if instance.None? {
        return Err(IllegalState);
      }
      r := Ok(instance.value);
    }

    /** enter: the bound context with one more reference, or a new one bound with one. */
    method Enter() returns (c: RequestContext)
      requires Valid()
      modifies this, if instance.Some? then {instance.value} else {}
      ensures Valid() && instance == Some(c)
      ensures old(instance).Some? ==>
        (c == old(instance).value && c.refCount == old(c.refCount) + 1 &&
         c.activeFilterChains == old(c.activeFilterChains))
      ensures old(instance).None? ==> fresh(c) && c.refCount == 1 && c.activeFilterChains == []
    {
      if instance.Some? {
        c := instance.value;
        c.refCount := c.refCount + 1;
        return;
      }
      c := new RequestContext();
      c.refCount := 1;
      instance := Some(c);
    }

    /**
     * exit: IllegalStateException when nothing is bound; otherwise one reference less, and
     * the context is unbound when none is left.
     */
    method Exit() returns (r: Result<()>)
      requires Valid()
      modifies if instance.Some? then {this, instance.value} else {}
      ensures Valid()
      ensures old(instance).None? ==> r == Err(IllegalState) && instance.None?
      ensures old(instance).Some? ==>
        (var c := old(instance).value;
         r == Ok(()) && c.refCount == old(c.refCount) - 1 &&
         c.activeFilterChains == old(c.activeFilterChains) &&
         instance == (if c.refCount == 0 then None else Some(c)))
    {
      if instance.None? {
        return Err(IllegalState);
      }
      var c := instance.value;
      c.refCount := c.refCount - 1;
      if c.refCount == 0 {
        instance := None;
      }
      r := Ok(());
    }
  }

  /** Enter on a free thread then exit leaves the thread free again. */
  method EnterExitBalanced(t: RequestThread) returns (c: RequestContext)
    requires t.Valid() && t.instance.None?
    modifies t
    ensures t.Valid() && t.instance.None? && fresh(c) && c.refCount == 0
  {
    c := t.Enter();
    var _ := t.Exit();
  }

  /** A nested enter returns the same context, and the thread stays bound until the outer exit. */
  method NestedEnterSharesContext(t: RequestThread) returns (c1: RequestContext, c2: RequestContext)
    requires t.Valid() && t.instance.None?
    modifies t
    ensures c1 == c2 && fresh(c1)
    ensures t.Valid() && t.instance == Some(c1) && c1.refCount == 1
  {
    c1 := t.Enter();
    c2 := t.Enter();
    var _ := t.Exit();
  }
}
