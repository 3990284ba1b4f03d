/**
 The context object itself (context/context.go): its fields, the methods that forward to
 the parent, and the loop that calls the finalizers.  Each method is one uninterrupted
 call; `ContextProtocol` takes the same critical sections apart and interleaves them, and
 `ContextRefinement` shows that every call here is a run of steps there.
 */
module ContextObject {
  import opened Common

  /** A registered finalizer, closer, or context that depends on this one. */
  datatype Finalizeable = Finalizer(tag: int) | Closer(tag: int) | Dependent(ctx: Ctx)

  /** The state of a context; an unallocated list and an empty one are the same. */
  datatype View = View(done: bool, wg: int, locked: bool, finalizeables: seq<Finalizeable>)

  /** How often a context is called back by a list of finalizeables. */
  function Callbacks(f: seq<Finalizeable>, c: Ctx): nat {
    if f == [] then 0
    else Callbacks(f[..|f| - 1], c) + if f[|f| - 1] == Dependent(c) then 1 else 0
  }

  class Ctx {
    var done: bool
    var wg: int
    /** A DependsOn has the lock. The other critical sections make no calls, so that in an
        uninterrupted run nobody finds their lock taken. */
    var locked: bool
    var finalizeables: Option<seq<Finalizeable>>
    const parent: Ctx?
    /** The length of the parent chain. */
    ghost const depth: nat

    /** Parents are set once, when the child is made. */
    ghost predicate Rooted()
      decreases depth
    {
      parent != null ==> parent.depth < depth && parent.Rooted()
    }

    ghost function Root(): (r: Ctx)
      requires Rooted()
      ensures r.parent == null && r.Rooted()
      decreases depth
    {
      if parent == null then this else parent.Root()
    }

    /** An allocated list has an element. */
    ghost predicate Valid()
      reads this
    {
      finalizeables.Some? ==> finalizeables.value != []
    }

    ghost function Now(): View
      reads this
    {
      View(done, wg, locked, if finalizeables.None? then [] else finalizeables.value)
    }

    constructor ()
      ensures parent == null && Rooted() && Valid() && Now() == View(false, 0, false, [])
    {
      done, wg, locked, finalizeables := false, 0, false, None;
      parent, depth := null, 0;
    }

    constructor Child(p: Ctx)
      requires p.Rooted()
      ensures parent == p && Rooted() && Root() == p.Root() && Valid() && Now() == View(false, 0, false, [])
    {
      done, wg, locked, finalizeables := false, 0, false, None;
      parent, depth := p, p.depth + 1;
    }

    /** None when the call waits for a lock that it will not get. */
    function IsClosed(): (closed: Option<bool>)
      requires Rooted()
      reads Root()
      ensures closed == if Root().locked then None else Some(Root().done)
      decreases depth
    {
      if parent != null then parent.IsClosed()
      else if locked then None
      else Some(done)
    }

    /** `returned` is false when the call waits for a lock that it will not get. */
    method RegisterFinalizer(f: Finalizeable) returns (returned: bool)
      requires Rooted() && Root().Valid() && !f.Closer?
      modifies Root()
      ensures Root().Valid()
      ensures var was := old(Root().Now());
              Root().Now() == if was.done || was.locked then was else was.(finalizeables := was.finalizeables + [f])
      ensures returned == !old(Root().locked)
      decreases depth
    {
      if parent != null {
        returned := parent.RegisterFinalizer(f);
        return;
      }
      returned := RegisterFinalizeable(f);
    }

    method RegisterCloser(f: Finalizeable) returns (returned: bool)
      requires Rooted() && Root().Valid() && f.Closer?
      modifies Root()
      ensures Root().Valid()
      ensures var was := old(Root().Now());
              Root().Now() == if was.done || was.locked then was else was.(finalizeables := was.finalizeables + [f])
      ensures returned == !old(Root().locked)
      decreases depth
    {
      if parent != null {
        returned := parent.RegisterCloser(f);
        return;
      }
      returned := RegisterFinalizeable(f);
    }

    method RegisterFinalizeable(f: Finalizeable) returns (returned: bool)
      requires Valid()
      modifies this
      ensures Valid()
      ensures var was := old(Now());
              Now() == if was.done || was.locked then was else was.(finalizeables := was.finalizeables + [f])
      ensures returned == !old(locked)
    {
      if locked {
        return false;
      }
      if done {
        return true;
      }
      if finalizeables.Some? {
        finalizeables := Some(finalizeables.value + [f]);
        return true;
      }
      finalizeables := Some([f]);
      return true;
    }

    /** An open root waits for one more, and its blocker's root has it to call back. The call
        returns unless it needs a lock that is held, which for an open context that depends on
        itself or on a child of its own is the one it has just taken. */
    method DependsOn(blocker: Ctx) returns (returned: bool)
      requires Rooted() && blocker.Rooted() && Root().Valid() && blocker.Root().Valid()
      modifies Root(), blocker.Root()
      ensures Root().Valid() && blocker.Root().Valid()
      ensures returned == (!old(Root().locked) && (old(Root().done) || (blocker.Root() != Root() && !old(blocker.Root().locked))))
      ensures var was := old(Root().Now());
              Root().Now() == if was.done || was.locked then was else was.(wg := was.wg + 1, locked := !returned)
      ensures var was := old(blocker.Root().Now());
              blocker.Root() != Root() ==>
                blocker.Root().Now() ==
                  if old(Root().done || Root().locked) || was.done || was.locked then was
                  else was.(finalizeables := was.finalizeables + [Dependent(Root())])
      decreases depth
    {
      if parent != null {
        returned := parent.DependsOn(blocker);
        return;
      }
      if locked {
        return false;
      }
      locked := true;
      if !done {
        wg := wg + 1;
        returned := blocker.RegisterFinalizer(Dependent(this));
        if !returned {
          return;
        }
      }
      locked := false;
      return true;
    }

    /** A call from a context that was depended upon. */
    method Finalize()
      modifies this
      ensures Now() == old(Now()).(wg := old(wg) - 1)
      ensures finalizeables == old(finalizeables)
    {
      wg := wg - 1;
    }

    /** Closes the root, once; what it had registered is handed over to be finalized. Only a
        context that has registered something waits for its blockers. */
    method Close() returns (returned: bool, waits: bool, f: seq<Finalizeable>)
      requires Rooted() && Root().Valid()
      modifies Root()
      ensures Root().Valid() && returned == !old(Root().locked)
      ensures var was := old(Root().Now());
              && f == (if was.done || was.locked then [] else was.finalizeables)
              && waits == (!was.done && !was.locked && was.finalizeables != [])
              && Root().Now() == if was.done || was.locked then was else was.(done := true, finalizeables := [])
      decreases depth
    {
      if parent != null {
        var closed := parent.IsClosed();
        if closed == Some(false) {
          returned, waits, f := parent.Close();
          return;
        }
        return closed.Some?, false, [];
      }
      if locked {
        return false, false, [];
      }
      if done {
        return true, false, [];
      }
      done := true;
      if finalizeables.None? {
        return true, false, [];
      }
      returned, waits, f := true, true, finalizeables.value;
      finalizeables := None;
    }

    /** One finalizeable is called; that of a dependent takes one off its wait group. */
    method Call(f: Finalizeable, ghost calls: seq<Finalizeable>) returns (ghost calls': seq<Finalizeable>)
      modifies if f.Dependent? then {f.ctx} else {}
      ensures calls' == calls + [f]
      ensures f.Dependent? ==> f.ctx.Now() == old(f.ctx.Now()).(wg := old(f.ctx.wg) - 1) && f.ctx.finalizeables == old(f.ctx.finalizeables)
    {
      if f.Dependent? {
        f.ctx.Finalize();
      }
      calls' := calls + [f];
    }

    /** What runs once the wait group is empty: everything captured, in the order of
        registration, each once; a dependent is called back once for every dependency. */
    method RunFinalizers(f: seq<Finalizeable>) returns (ghost calls: seq<Finalizeable>)
      modifies set x | x in f && x.Dependent? :: x.ctx
      ensures calls == f
      ensures forall c: Ctx :: Dependent(c) in f ==> c.Now() == old(c.Now()).(wg := old(c.wg) - Callbacks(f, c))
    {
      calls := [];
      for i := 0 to |f|
        invariant calls == f[..i]
        invariant forall c: Ctx :: Dependent(c) in f ==> c.Now() == old(c.Now()).(wg := old(c.wg) - Callbacks(f[..i], c))
      {
        assert f[..i + 1][..i] == f[..i];
        calls := Call(f[i], calls);
      }
    }
  }
}
