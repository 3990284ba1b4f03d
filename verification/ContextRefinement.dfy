/**
 Every call of `ContextObject` is a run of steps of `ContextProtocol`: contexts in the heap
 that agree with a state of the protocol still agree with it after both have moved.  So what
 `ContextTheorems` says about reachable states is true of the objects.
 */
module ContextRefinement {
  import opened Common
  import P = ContextProtocol
  import opened ContextObject

  /** What is registered, with contexts in the heap in place of their numbers. */
  ghost predicate FinAgrees(objs: seq<Ctx>, f: Finalizeable, g: P.Fin) {
    match f
    case Finalizer(tag) => g == P.Finalizer(tag)
    case Closer(tag) => g == P.Closer(tag)
    case Dependent(o) => g.Callback? && g.dependent < |objs| && objs[g.dependent] == o
  }

  ghost predicate ListAgrees(objs: seq<Ctx>, fs: seq<Finalizeable>, gs: seq<P.Fin>) {
    |fs| == |gs| && forall k :: 0 <= k < |fs| ==> FinAgrees(objs, fs[k], gs[k])
  }

  /** A parent is the object with its number. */
  ghost predicate ParentAgrees(objs: seq<Ctx>, o: Ctx, x: P.Context) {
    && o.Rooted()
    && match x.parent
       case None => o.parent == null
       case Some(p) => p < |objs| && o.parent == objs[p]
  }

  ghost predicate ViewAgrees(objs: seq<Ctx>, v: View, x: P.Context) {
    && v.done == x.Done() && v.wg == x.wg && v.locked == x.adding.Some?
    && ListAgrees(objs, v.finalizeables, x.finalizeables)
  }

  ghost predicate CtxAgrees(objs: seq<Ctx>, o: Ctx, x: P.Context)
    reads o
  {
    ParentAgrees(objs, o, x) && o.Valid() && ViewAgrees(objs, o.Now(), x)
  }

  ghost predicate Agrees(objs: seq<Ctx>, s: P.State)
    reads objs
  {
    && |objs| == |s.ctxs| && Distinct(objs) && P.ParentsOlder(s)
    && forall c :: 0 <= c < |objs| ==> CtxAgrees(objs, objs[c], s.ctxs[c])
  }

  /** Both find the same root. */
  lemma {:induction false} RootAgrees(objs: seq<Ctx>, s: P.State, c: nat)
    requires Agrees(objs, s) && c < |objs|
    ensures P.Root(s, c) < |objs| && objs[c].Rooted() && objs[c].Root() == objs[P.Root(s, c)]
    decreases c
  {
    assert CtxAgrees(objs, objs[c], s.ctxs[c]);
    if s.ctxs[c].parent.Some? {
      RootAgrees(objs, s, s.ctxs[c].parent.value);
    }
  }

  /** It is enough to look at what was touched. */
  lemma OthersAgree(objs: seq<Ctx>, s: P.State, s': P.State, r: nat, q: nat)
    requires |objs| == |s.ctxs| == |s'.ctxs| && Distinct(objs) && P.ParentsOlder(s) && s.Has(r) && s.Has(q)
    requires forall d :: 0 <= d < |objs| ==> ParentAgrees(objs, objs[d], s.ctxs[d])
    requires forall d :: 0 <= d < |objs| && d != r && d != q ==> s'.ctxs[d] == s.ctxs[d] && CtxAgrees(objs, objs[d], s.ctxs[d])
    requires ChangedAgrees(objs, s, s', r) && ChangedAgrees(objs, s, s', q)
    ensures Agrees(objs, s')
  {
    forall d | 0 <= d < |objs| ensures CtxAgrees(objs, objs[d], s'.ctxs[d]) {
      assert ParentAgrees(objs, objs[d], s.ctxs[d]);
    }
  }

  ghost predicate ChangedAgrees(objs: seq<Ctx>, s: P.State, s': P.State, r: nat)
    requires s.Has(r) && s'.Has(r) && r < |objs|
    reads objs[r]
  {
    s'.ctxs[r].parent == s.ctxs[r].parent && objs[r].Valid() && ViewAgrees(objs, objs[r].Now(), s'.ctxs[r])
  }

  /** A step that the objects do not see. */
  lemma UnseenStep(objs: seq<Ctx>, s: P.State, c: nat, s': P.State)
    requires Agrees(objs, s) && s.Has(c) && s'.Has(c) && s'.ctxs == s.ctxs[c := s'.ctxs[c]]
    requires var x, x' := s.ctxs[c], s'.ctxs[c];
             x'.parent == x.parent && x'.Done() == x.Done() && x'.wg == x.wg && x'.adding == x.adding && x'.finalizeables == x.finalizeables
    ensures Agrees(objs, s')
  {
    assert CtxAgrees(objs, objs[c], s.ctxs[c]);
  }

  /** A new context, or a new child of an old one. */
  method New(objs: seq<Ctx>, ghost s: P.State, parent: Option<nat>) returns (objs': seq<Ctx>, ghost s': P.State)
    requires Agrees(objs, s) && (parent.Some? ==> parent.value < |objs|)
    ensures s' == P.Step(s, if parent.Some? then P.NewChild(parent.value) else P.NewContext)
    ensures Agrees(objs', s') && objs' == objs + [objs'[|objs|]] && fresh(objs'[|objs|])
  {
    s' := P.Step(s, if parent.Some? then P.NewChild(parent.value) else P.NewContext);
    var o: Ctx;
    if parent.Some? {
      assert CtxAgrees(objs, objs[parent.value], s.ctxs[parent.value]);
      o := new Ctx.Child(objs[parent.value]);
    } else {
      o := new Ctx();
    }
    objs' := objs + [o];
    forall d | 0 <= d < |objs'| ensures CtxAgrees(objs', objs'[d], s'.ctxs[d]) {
      if d < |objs| {
        assert old(CtxAgrees(objs, objs[d], s.ctxs[d]));
        MoreObjects(objs, o, objs[d].Now().finalizeables, s.ctxs[d].finalizeables);
      }
    }
  }

  lemma MoreObjects(objs: seq<Ctx>, o: Ctx, fs: seq<Finalizeable>, gs: seq<P.Fin>)
    requires ListAgrees(objs, fs, gs)
    ensures ListAgrees(objs + [o], fs, gs)
  {
    forall k | 0 <= k < |fs| ensures FinAgrees(objs + [o], fs[k], gs[k]) {
      assert FinAgrees(objs, fs[k], gs[k]);
    }
  }

  lemma RegisterView(objs: seq<Ctx>, v: View, x: P.Context, f: Finalizeable, g: P.Fin)
    requires ViewAgrees(objs, v, x) && FinAgrees(objs, f, g) && !v.locked
    ensures ViewAgrees(objs, if v.done then v else v.(finalizeables := v.finalizeables + [f]), P.RegisterAt(x, g))
  {
  }

  /** Registering is one step. */
  method Register(objs: seq<Ctx>, ghost s: P.State, c: nat, f: Finalizeable, ghost g: P.Fin) returns (ghost s': P.State)
    requires Agrees(objs, s) && P.Enabled(s, P.RegisterFin(c, g)) && FinAgrees(objs, f, g) && !f.Dependent?
    modifies objs
    ensures s' == P.Step(s, P.RegisterFin(c, g)) && Agrees(objs, s')
  {
    RootAgrees(objs, s, c);
    P.RootStep(s, c, g, c);
    ghost var r := P.Root(s, c);
    assert CtxAgrees(objs, objs[r], s.ctxs[r]);
    RegisterView(objs, objs[r].Now(), s.ctxs[r], f, g);
    s' := s.Put(r, P.RegisterAt(s.ctxs[r], g));
    if f.Closer? {
      var _ := objs[c].RegisterCloser(f);
    } else {
      var _ := objs[c].RegisterFinalizer(f);
    }
    OthersAgree(objs, s, s', r, r);
  }

  /** DependsOn without interruption: its first half, and then its second half if that is
      possible at once. */
  ghost function Depended(s: P.State, c: nat, b: nat): P.State
    requires P.Enabled(s, P.DependsOn(c, b))
  {
    var s1 := P.Step(s, P.DependsOn(c, b));
    var second := P.DependsOnRegister(P.Root(s, c));
    if P.Enabled(s1, second) then P.Step(s1, second) else s1
  }

  /** The second half is possible at once. */
  ghost predicate LocksFree(s: P.State, c: nat, b: nat)
    requires s.Has(c) && s.Has(b)
  {
    var r, rb := P.Root(s, c), P.Root(s, b);
    !s.ctxs[r].Done() && rb != r && s.ctxs[rb].adding.None?
  }

  /** What it does to the roots of both. */
  ghost function DependedContexts(s: P.State, c: nat, b: nat): seq<P.Context>
    requires s.Has(c) && s.Has(b)
  {
    var r, rb, n := P.Root(s, c), P.Root(s, b), |s.tickets|;
    var x, y := s.ctxs[r], s.ctxs[rb];
    if x.Done() then s.ctxs
    else if rb != r && y.adding.None? then
      s.ctxs[rb := P.RegisterAt(y, P.Callback(r, n))][r := x.(wg := x.wg + 1, adding := None)]
    else s.ctxs[r := x.(wg := x.wg + 1, adding := Some(n))]
  }

  lemma DependedShape(s: P.State, c: nat, b: nat)
    requires P.ParentsOlder(s) && P.Enabled(s, P.DependsOn(c, b))
    ensures P.Enabled(P.Step(s, P.DependsOn(c, b)), P.DependsOnRegister(P.Root(s, c))) == LocksFree(s, c, b)
    ensures Depended(s, c, b).ctxs == DependedContexts(s, c, b)
  {
    P.RootStep(s, c, P.Finalizer(0), b);
    var r, rb, s1 := P.Root(s, c), P.Root(s, b), P.Step(s, P.DependsOn(c, b));
    if s.ctxs[r].Done() {
      assert s1 == s;
    } else {
      assert s1 == P.WithTicket(s, r, rb);
      SecondHalf(s, r, rb);
    }
  }

  lemma SecondHalf(s: P.State, r: nat, rb: nat)
    requires s.Has(r) && s.Has(rb)
    ensures var s1, second := P.WithTicket(s, r, rb), P.DependsOnRegister(r);
            var x, y, n := s.ctxs[r], s.ctxs[rb], |s.tickets|;
            && P.Enabled(s1, second) == (rb != r && y.adding.None?)
            && (P.Enabled(s1, second) ==>
                  P.Step(s1, second).ctxs == s.ctxs[rb := P.RegisterAt(y, P.Callback(r, n))][r := x.(wg := x.wg + 1, adding := None)])
  {
  }

  lemma SameContexts(objs: seq<Ctx>, s: P.State, s': P.State)
    requires Agrees(objs, s) && s'.ctxs == s.ctxs
    ensures Agrees(objs, s')
  {
  }

  /** What the caller of DependsOn looks like then, whether the call has returned or not. */
  lemma DependerView(objs: seq<Ctx>, v: View, x: P.Context, n: nat)
    requires ViewAgrees(objs, v, x) && !v.locked
    ensures ViewAgrees(objs, v.(wg := v.wg + 1), x.(wg := x.wg + 1, adding := None))
    ensures ViewAgrees(objs, v.(wg := v.wg + 1, locked := true), x.(wg := x.wg + 1, adding := Some(n)))
  {
  }

  /** What both roots look like then. */
  lemma DependedViews(objs: seq<Ctx>, s: P.State, c: nat, b: nat, v: View, w: View)
    requires s.Has(c) && s.Has(b) && |objs| == |s.ctxs|
    requires ViewAgrees(objs, v, s.ctxs[P.Root(s, c)]) && ViewAgrees(objs, w, s.ctxs[P.Root(s, b)]) && !v.locked
    ensures var r, rb, ctxs := P.Root(s, c), P.Root(s, b), DependedContexts(s, c, b);
            && |ctxs| == |s.ctxs| && ctxs[r].parent == s.ctxs[r].parent && ctxs[rb].parent == s.ctxs[rb].parent
            && ViewAgrees(objs, if v.done then v else v.(wg := v.wg + 1, locked := !LocksFree(s, c, b)), ctxs[r])
            && (rb != r ==> ViewAgrees(objs, if v.done || w.done || w.locked then w
                                             else w.(finalizeables := w.finalizeables + [Dependent(objs[r])]), ctxs[rb]))
            && forall d :: 0 <= d < |ctxs| && d != r && d != rb ==> ctxs[d] == s.ctxs[d]
  {
    var r, rb := P.Root(s, c), P.Root(s, b);
    DependerView(objs, v, s.ctxs[r], |s.tickets|);
    if !w.locked {
      RegisterView(objs, w, s.ctxs[rb], Dependent(objs[r]), P.Callback(r, |s.tickets|));
    }
  }

  method DependOn(objs: seq<Ctx>, ghost s: P.State, c: nat, b: nat) returns (returned: bool)
    requires Agrees(objs, s) && c < |objs| && b < |objs| && s.ctxs[P.Root(s, c)].adding.None?
    modifies objs
    ensures Agrees(objs, s.(ctxs := DependedContexts(s, c, b)))
    ensures returned == (s.ctxs[P.Root(s, c)].Done() || LocksFree(s, c, b))
  {
    RootAgrees(objs, s, c);
    RootAgrees(objs, s, b);
    ghost var r, rb := P.Root(s, c), P.Root(s, b);
    assert CtxAgrees(objs, objs[r], s.ctxs[r]) && CtxAgrees(objs, objs[rb], s.ctxs[rb]);
    DependedViews(objs, s, c, b, objs[r].Now(), objs[rb].Now());
    ghost var s' := s.(ctxs := DependedContexts(s, c, b));
    returned := objs[c].DependsOn(objs[b]);
    assert ChangedAgrees(objs, s, s', r) && ChangedAgrees(objs, s, s', rb);
    OthersAgree(objs, s, s', r, rb);
  }

  /** If the second half is not possible the call does not return, and it holds the lock
      just as the protocol says. */
  method DependsOn(objs: seq<Ctx>, ghost s: P.State, c: nat, b: nat) returns (returned: bool, ghost s': P.State)
    requires Agrees(objs, s) && P.Enabled(s, P.DependsOn(c, b))
    modifies objs
    ensures s' == Depended(s, c, b) && Agrees(objs, s')
    ensures returned == (s.ctxs[P.Root(s, c)].Done() || P.Enabled(P.Step(s, P.DependsOn(c, b)), P.DependsOnRegister(P.Root(s, c))))
  {
    DependedShape(s, c, b);
    s' := Depended(s, c, b);
    returned := DependOn(objs, s, c, b);
    SameContexts(objs, s.(ctxs := DependedContexts(s, c, b)), s');
  }

  /** Close without interruption: the mark and, on a context that was open, the capture. */
  ghost function Closed(s: P.State, c: nat): P.State
    requires P.ParentsOlder(s) && P.Enabled(s, P.CloseMark(c))
  {
    P.RootStep(s, c, P.Finalizer(0), c);
    var r, s1 := P.Root(s, c), P.Step(s, P.CloseMark(c));
    if s.ctxs[r].Done() then s1 else P.Step(s1, P.Capture(r))
  }

  lemma ClosedShape(s: P.State, c: nat)
    requires P.ParentsOlder(s) && P.Enabled(s, P.CloseMark(c))
    ensures var r := P.Root(s, c);
            var x := s.ctxs[r];
            Closed(s, c).ctxs == if x.Done() then s.ctxs else s.ctxs[r := P.CaptureAt(x.(phase := P.Marked))]
  {
    P.RootStep(s, c, P.Finalizer(0), c);
  }

  /** What is handed over is what was captured, and it is waited for exactly then. */
  method Close(objs: seq<Ctx>, ghost s: P.State, c: nat)
      returns (waits: bool, f: seq<Finalizeable>, ghost s': P.State)
    requires Agrees(objs, s) && P.Enabled(s, P.CloseMark(c))
    modifies objs
    ensures s' == Closed(s, c) && Agrees(objs, s')
    ensures var x, x' := s.ctxs[P.Root(s, c)], s'.ctxs[P.Root(s, c)];
            && waits == (!x.Done() && x'.phase.Waiting?)
            && (waits ==> ListAgrees(objs, f, x'.captured))
  {
    RootAgrees(objs, s, c);
    ClosedShape(s, c);
    ghost var r := P.Root(s, c);
    assert CtxAgrees(objs, objs[r], s.ctxs[r]);
    s' := Closed(s, c);
    var returned;
    returned, waits, f := objs[c].Close();
    OthersAgree(objs, s, s', r, r);
  }

  /** One call of a finalizer is one step. */
  method CallNext(objs: seq<Ctx>, ghost s: P.State, c: nat, f: Finalizeable, ghost calls: seq<Finalizeable>)
      returns (ghost s': P.State, ghost calls': seq<Finalizeable>)
    requires Agrees(objs, s) && c < |objs|
    requires s.ctxs[c].phase.Running? && s.ctxs[c].next < |s.ctxs[c].captured|
    requires FinAgrees(objs, f, s.ctxs[c].captured[s.ctxs[c].next])
    modifies objs
    ensures P.Enabled(s, P.RunNext(c)) && s' == P.Step(s, P.RunNext(c))
    ensures Agrees(objs, s') && calls' == calls + [f]
  {
    s' := P.Step(s, P.RunNext(c));
    ghost var g := s.ctxs[c].captured[s.ctxs[c].next];
    ghost var q := if g.Callback? then g.dependent else c;
    assert CtxAgrees(objs, objs[c], s.ctxs[c]) && CtxAgrees(objs, objs[q], s.ctxs[q]);
    calls' := objs[c].Call(f, calls);
    OthersAgree(objs, s, s', c, q);
  }

  /** s' comes from s by steps in which c has called the first n of what it captured. */
  ghost predicate Partway(s: P.State, run: seq<P.Action>, s': P.State, c: nat, n: nat) {
    && P.Leads(s, run, s') && s.Has(c) && s'.Has(c)
    && s'.ctxs[c].phase.Running? && s'.ctxs[c].next == n && s'.ctxs[c].captured == s.ctxs[c].captured
  }

  lemma StartPartway(objs: seq<Ctx>, s: P.State, c: nat)
    requires Agrees(objs, s) && P.Enabled(s, P.Start(c))
    ensures Partway(s, [P.Start(c)], P.Step(s, P.Start(c)), c, 0)
    ensures Agrees(objs, P.Step(s, P.Start(c)))
  {
    UnseenStep(objs, s, c, P.Step(s, P.Start(c)));
  }

  lemma PartwayNext(s: P.State, run: seq<P.Action>, s': P.State, c: nat, n: nat)
    requires Partway(s, run, s', c, n) && P.Enabled(s', P.RunNext(c))
    ensures Partway(s, run + [P.RunNext(c)], P.Step(s', P.RunNext(c)), c, n + 1)
  {
    P.LeadsSnoc(s, run, s', P.RunNext(c));
  }

  lemma FinishPartway(objs: seq<Ctx>, s: P.State, run: seq<P.Action>, s': P.State, c: nat)
    requires s.Has(c) && Partway(s, run, s', c, |s.ctxs[c].captured|) && Agrees(objs, s')
    ensures P.Enabled(s', P.Finish(c))
    ensures var s'' := P.Step(s', P.Finish(c));
            P.Leads(s, run + [P.Finish(c)], s'') && Agrees(objs, s'') && s''.Has(c) && s''.ctxs[c].phase.Finished?
  {
    P.LeadsSnoc(s, run, s', P.Finish(c));
    UnseenStep(objs, s', c, P.Step(s', P.Finish(c)));
  }

  method CallPartway(objs: seq<Ctx>, ghost s: P.State, ghost run: seq<P.Action>, ghost s1: P.State, c: nat, f: seq<Finalizeable>, i: nat)
      returns (ghost s': P.State)
    requires Agrees(objs, s1) && Partway(s, run, s1, c, i) && ListAgrees(objs, f, s.ctxs[c].captured) && i < |f|
    modifies objs
    ensures Agrees(objs, s') && Partway(s, run + [P.RunNext(c)], s', c, i + 1)
  {
    ghost var calls;
    s', calls := CallNext(objs, s1, c, f[i], f[..i]);
    PartwayNext(s, run, s1, c, i);
  }

  /** A context that waits for nothing any more starts, calls what it captured one after the
      other, and is finished. */
  method RunFinalizers(objs: seq<Ctx>, ghost s: P.State, c: nat, f: seq<Finalizeable>)
      returns (ghost s': P.State, ghost run: seq<P.Action>)
    requires Agrees(objs, s) && P.Enabled(s, P.Start(c)) && ListAgrees(objs, f, s.ctxs[c].captured)
    modifies objs
    ensures P.Leads(s, run, s') && Agrees(objs, s') && s'.Has(c) && s'.ctxs[c].phase.Finished?
  {
    StartPartway(objs, s, c);
    run := [P.Start(c)];
    ghost var s1 := P.Step(s, P.Start(c));
    for i := 0 to |f|
      invariant Partway(s, run, s1, c, i) && Agrees(objs, s1)
    {
      s1 := CallPartway(objs, s, run, s1, c, f, i);
      run := run + [P.RunNext(c)];
    }
    FinishPartway(objs, s, run, s1, c);
    run := run + [P.Finish(c)];
    s' := P.Step(s1, P.Finish(c));
  }
}
