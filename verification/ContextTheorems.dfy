/**
 What the context protocol guarantees over whole runs: the order of finalization, what is
 run and how often, and when a closed system comes to rest with everything finalized.
 */
module ContextTheorems {
  import opened Common
  import opened ContextProtocol

  // ---- histories only grow -------------------------------------------------

  /** From s to s' the contexts, their histories and their tickets are only added to, and
      nothing is accepted by a context that was closed in s. */
  ghost predicate Grows(s: State, s': State) {
    && |s.ctxs| <= |s'.ctxs| && |s.tickets| <= |s'.tickets|
    && (forall c :: 0 <= c < |s.ctxs| ==> ContextGrows(s.ctxs[c], s'.ctxs[c]))
    && (forall i :: 0 <= i < |s.tickets| ==> TicketGrows(s.tickets[i], s'.tickets[i]))
  }

  ghost predicate ContextGrows(x: Context, x': Context) {
    && x'.parent == x.parent
    && x.accepted <= x'.accepted && x.executed <= x'.executed
    && (x.Done() ==> x'.Done() && x'.accepted == x.accepted)
  }

  ghost predicate TicketGrows(t: Ticket, t': Ticket) {
    && t'.dependent == t.dependent && t'.blocker == t.blocker
    && (!t.status.Adding? ==> t'.status == t.status)
  }

  lemma GrowsTransitive(s: State, s': State, s'': State)
    requires Grows(s, s') && Grows(s', s'')
    ensures Grows(s, s'')
  {
    forall c | 0 <= c < |s.ctxs| ensures ContextGrows(s.ctxs[c], s''.ctxs[c]) {
      assert ContextGrows(s.ctxs[c], s'.ctxs[c]) && ContextGrows(s'.ctxs[c], s''.ctxs[c]);
      PrefixTransitive(s.ctxs[c].accepted, s'.ctxs[c].accepted, s''.ctxs[c].accepted);
      PrefixTransitive(s.ctxs[c].executed, s'.ctxs[c].executed, s''.ctxs[c].executed);
    }
    forall i | 0 <= i < |s.tickets| ensures TicketGrows(s.tickets[i], s''.tickets[i]) {
      assert TicketGrows(s.tickets[i], s'.tickets[i]) && TicketGrows(s'.tickets[i], s''.tickets[i]);
    }
  }

  lemma PrefixTransitive<T>(a: seq<T>, b: seq<T>, c: seq<T>)
    requires a <= b <= c
    ensures a <= c
  {
    assert b[..|a|] == a && c[..|b|] == b;
    assert c[..|a|] == c[..|b|][..|a|];
  }

  lemma PutGrows(s: State, c: nat, x: Context)
    requires s.Has(c) && ContextGrows(s.ctxs[c], x)
    ensures Grows(s, s.Put(c, x))
  {
  }

  lemma RunOneGrows(s: State, c: nat)
    requires Inv(s) && Enabled(s, RunNext(c))
    ensures Grows(s, RunOne(s, c))
  {
    RunOneShape(s, c);
  }

  lemma RegisterDependencyGrows(s: State, c: nat)
    requires Inv(s) && Enabled(s, DependsOnRegister(c))
    ensures Grows(s, RegisterDependency(s, c))
  {
    assert AddingOk(s, c);
  }

  lemma DependsOnGrows(s: State, c: nat, blocker: nat)
    requires Inv(s) && Enabled(s, DependsOn(c, blocker))
    ensures Grows(s, BeginDependsOn(s, c, blocker))
  {
    RootStep(s, c, Finalizer(0), blocker);
  }

  lemma NewGrows(s: State, x: Context)
    ensures Grows(s, s.(ctxs := s.ctxs + [x]))
  {
  }

  lemma StepGrows(s: State, a: Action)
    requires Inv(s) && Enabled(s, a)
    ensures Grows(s, Step(s, a))
  {
    match a
    case NewContext => NewGrows(s, FRESH);
    case NewChild(c) => NewGrows(s, FRESH.(parent := Some(c)));
    case RegisterFin(c, f) =>
      RootStep(s, c, f, c);
      PutGrows(s, Root(s, c), RegisterAt(s.ctxs[Root(s, c)], f));
    case DependsOn(c, blocker) => DependsOnGrows(s, c, blocker);
    case DependsOnRegister(c) => RegisterDependencyGrows(s, c);
    case CloseMark(c) =>
      RootStep(s, c, Finalizer(0), c);
      PutGrows(s, Root(s, c), MarkAt(s.ctxs[Root(s, c)]));
    case Capture(c) => PutGrows(s, c, CaptureAt(s.ctxs[c]));
    case Start(c) => PutGrows(s, c, Step(s, a).ctxs[c]);
    case RunNext(c) => RunOneGrows(s, c);
    case Finish(c) => PutGrows(s, c, s.ctxs[c].(phase := Finished));
  }

  lemma {:induction false} RunGrows(s: State, run: seq<Action>, s': State)
    requires Inv(s) && Leads(s, run, s')
    ensures Grows(s, s')
    decreases |run|
  {
    if run != [] {
      var s1 := Step(s, run[0]);
      InvStep(s, run[0]);
      StepGrows(s, run[0]);
      RunGrows(s1, run[1..], s');
      GrowsTransitive(s, s1, s');
    }
  }

  // ---- what runs, how often and in which order -----------------------------

  /** c has begun to call its finalizers. */
  predicate Started(s: State, c: nat) {
    s.Has(c) && s.ctxs[c].order > 0
  }

  /** In every reachable state the calls made are the first registrations accepted, each
      once and in the order of registration; a finished context has called all of them,
      and calls are made only by contexts that have started. */
  lemma ExecutedInOrder(s: State, c: nat)
    requires Reachable(s) && s.Has(c)
    ensures s.ctxs[c].executed <= s.ctxs[c].accepted
    ensures s.ctxs[c].phase.Finished? ==> s.ctxs[c].executed == s.ctxs[c].accepted
    ensures s.ctxs[c].executed != [] ==> Started(s, c)
  {
    InvReachable(s);
    assert ContextOk(s.ctxs[c]);
  }

  /** Nothing registered after close is ever run: from a state where c is closed, whatever
      happens, c runs only what it had accepted by then; registering changes nothing. */
  lemma NothingAfterClose(s: State, run: seq<Action>, s': State, c: nat, f: Fin)
    requires Reachable(s) && Leads(s, run, s')
    requires s.Has(c) && IsClosed(s, c)
    ensures Register(s, c, f) == s
    ensures var r := Root(s, c); s'.Has(r) && s'.ctxs[r].executed <= s.ctxs[r].accepted
  {
    InvReachable(s);
    ChildActsAsRoot(s, c, f, c);
    RootStep(s, c, f, c);
    var r := Root(s, c);
    assert s.Put(r, s.ctxs[r]) == s;
    InvRun(s, run, s');
    RunGrows(s, run, s');
    assert ContextGrows(s.ctxs[r], s'.ctxs[r]) && ContextOk(s'.ctxs[r]);
  }

  // ---- blockers first ------------------------------------------------------

  /** Take any run, and any DependsOn in it that found its context c open, at the moment it
      reaches the blocker.  If c starts its finalizers later, the blocker was open then,
      started before c, and has run everything it had accepted by then and the callback. */
  lemma BlockerRunsFirst(s: State, c: nat, run: seq<Action>, s': State)
    requires Reachable(s) && Enabled(s, DependsOnRegister(c))
    requires Leads(Step(s, DependsOnRegister(c)), run, s')
    requires Started(s', c)
    ensures var i := s.ctxs[c].adding.value; var b := s.tickets[i].blocker;
            && !s.ctxs[b].Done()
            && s'.Has(b) && s'.ctxs[b].order < s'.ctxs[c].order
            && s.ctxs[b].accepted + [Callback(c, i)] <= s'.ctxs[b].executed
  {
    InvReachable(s);
    var i := s.ctxs[c].adding.value;
    var b := s.tickets[i].blocker;
    assert AddingOk(s, c);
    var s1 := Step(s, DependsOnRegister(c));
    InvStep(s, DependsOnRegister(c));
    InvRun(s1, run, s');
    RunGrows(s1, run, s');
    assert TicketGrows(s1.tickets[i], s'.tickets[i]) && ContextGrows(s1.ctxs[b], s'.ctxs[b]);
    assert StartedOk(s', i) && ContextOk(s'.ctxs[b]);
    CalledBackRan(s, c, s', i);
  }

  /** A blocker that has called back has run all that was registered before. */
  lemma CalledBackRan(s: State, c: nat, s': State, i: nat)
    requires Enabled(s, DependsOnRegister(c)) && s.ctxs[c].adding == Some(i) && s.tickets[i].status.Adding?
    requires var s1, b := RegisterDependency(s, c), s.tickets[i].blocker;
             && |s.tickets| <= |s'.tickets| && s'.Has(b)
             && TicketGrows(s1.tickets[i], s'.tickets[i]) && ContextGrows(s1.ctxs[b], s'.ctxs[b]) && ContextOk(s'.ctxs[b])
    requires CalledBack(s', i)
    ensures var b := s.tickets[i].blocker;
            !s.ctxs[b].Done() && s.ctxs[b].accepted + [Callback(c, i)] <= s'.ctxs[b].executed
  {
    var s1, b := RegisterDependency(s, c), s.tickets[i].blocker;
    assert s1.ctxs[b].accepted == s.ctxs[b].accepted + [Callback(c, i)];
    PrefixesCompare(s1.ctxs[b].accepted, s'.ctxs[b].executed, s'.ctxs[b].accepted);
  }

  lemma PrefixesCompare<T>(a: seq<T>, b: seq<T>, c: seq<T>)
    requires a <= c && b <= c && |a| <= |b|
    ensures a <= b
  {
    assert c[..|a|] == a && c[..|b|] == b;
    assert b[..|a|] == c[..|a|];
  }

  /** A dependency on a context that was closed already is never called back: the
      dependent never starts its finalizers, whatever happens. */
  lemma DroppedNeverStarts(s: State, c: nat, run: seq<Action>, s': State)
    requires Reachable(s) && Enabled(s, DependsOnRegister(c))
    requires s.ctxs[s.tickets[s.ctxs[c].adding.value].blocker].Done()
    requires Leads(Step(s, DependsOnRegister(c)), run, s')
    ensures !Started(s', c)
  {
    if Started(s', c) {
      BlockerRunsFirst(s, c, run, s');
    }
  }

  /** Tickets that lead from a context to a blocker of a blocker and so on. */
  ghost predicate Chain(s: State, ts: seq<nat>) {
    && (forall k :: 0 <= k < |ts| ==> ts[k] < |s.tickets|)
    && (forall k :: 0 <= k < |ts| - 1 ==> s.tickets[ts[k]].blocker == s.tickets[ts[k + 1]].dependent)
  }

  /** When a context has started, every context it depends on, directly or through others,
      has called back, and each started before the one that waited for it. */
  lemma {:induction false} ChainRunsFirst(s: State, ts: seq<nat>)
    requires Inv(s) && Chain(s, ts) && ts != []
    requires Started(s, s.tickets[ts[0]].dependent)
    ensures forall k :: 0 <= k < |ts| ==> CalledBack(s, ts[k])
    ensures var b := s.tickets[ts[|ts| - 1]].blocker;
            Started(s, b) && s.ctxs[b].order < s.ctxs[s.tickets[ts[0]].dependent].order
    decreases |ts|
  {
    assert StartedOk(s, ts[0]);
    if |ts| > 1 {
      var rest := ts[1..];
      forall k | 0 <= k < |rest| ensures rest[k] < |s.tickets| {
        assert rest[k] == ts[k + 1];
      }
      forall k | 0 <= k < |rest| - 1 ensures s.tickets[rest[k]].blocker == s.tickets[rest[k + 1]].dependent {
        assert rest[k] == ts[k + 1] && rest[k + 1] == ts[k + 2];
      }
      ChainRunsFirst(s, rest);
      forall k | 0 <= k < |ts| ensures CalledBack(s, ts[k]) {
        assert k > 0 ==> ts[k] == rest[k - 1];
      }
    }
  }

  lemma TransitiveBlockersFirst(s: State, ts: seq<nat>)
    requires Reachable(s) && Chain(s, ts) && ts != []
    requires Started(s, s.tickets[ts[0]].dependent)
    ensures forall k :: 0 <= k < |ts| ==> CalledBack(s, ts[k])
    ensures var b := s.tickets[ts[|ts| - 1]].blocker;
            Started(s, b) && s.ctxs[b].order < s.ctxs[s.tickets[ts[0]].dependent].order
  {
    InvReachable(s);
    ChainRunsFirst(s, ts);
  }

  // ---- coming to rest ------------------------------------------------------

  /** A step that the protocol takes by itself. */
  predicate Internal(a: Action) {
    a.DependsOnRegister? || a.Capture? || a.Start? || a.RunNext? || a.Finish?
  }

  ghost predicate AtRest(s: State) {
    forall a :: Internal(a) ==> !Enabled(s, a)
  }

  /** Every root context has been closed. */
  ghost predicate AllClosed(s: State) {
    forall c :: 0 <= c < |s.ctxs| && s.ctxs[c].parent.None? ==> s.ctxs[c].Done()
  }

  ghost predicate Unfinished(s: State, c: nat) {
    s.Has(c) && s.ctxs[c].parent.None? && !s.ctxs[c].phase.Finished?
  }

  /** A dependency was dropped, and its dependent has something to finalize. */
  ghost predicate Starved(s: State, i: nat) {
    && i < |s.tickets| && s.tickets[i].status.Dropped?
    && s.Has(s.tickets[i].dependent) && s.ctxs[s.tickets[i].dependent].accepted != []
  }

  ghost predicate Cycle(s: State, ts: seq<nat>) {
    && ts != [] && Chain(s, ts)
    && (forall k :: 0 <= k < |ts| ==> s.tickets[ts[k]].status.Registered?)
    && s.tickets[ts[|ts| - 1]].blocker == s.tickets[ts[0]].dependent
  }

  lemma RunningCanStep(s: State, c: nat)
    requires Inv(s) && s.Has(c)
    ensures s.ctxs[c].phase.Running? ==> Enabled(s, RunNext(c)) || Enabled(s, Finish(c))
  {
    var x := s.ctxs[c];
    assert ContextOk(x);
    if x.phase.Running? && x.next < |x.accepted| {
      assert CallbackOk(s, c, x.next);
      if x.accepted[x.next].Callback? {
        assert TicketOk(s, x.accepted[x.next].ticket);
      }
    }
  }

  /** At rest, an unfinished context waits for a dropped ticket, or for another unfinished one. */
  lemma UnfinishedWaits(s: State, c: nat) returns (i: nat)
    requires Inv(s) && AllClosed(s) && AtRest(s) && Unfinished(s, c)
    ensures i < |s.tickets| && s.tickets[i].dependent == c
    ensures Starved(s, i) || (s.tickets[i].status.Registered? && Unfinished(s, s.tickets[i].blocker))
  {
    var x := s.ctxs[c];
    assert ContextOk(x);
    assert !Enabled(s, Capture(c)) && !Enabled(s, Start(c)) && !Enabled(s, Finish(c)) && !Enabled(s, RunNext(c));
    RunningCanStep(s, c);
    assert x.phase.Waiting?;
    assert OutstandingSet(s, c) != {};
    i :| i in OutstandingSet(s, c);
    assert TicketOk(s, i);
    var b := s.tickets[i].blocker;
    assert ContextOk(s.ctxs[b]);
  }

  /** Without a dropped dependency the waiting goes on for as many steps as we like. */
  lemma {:induction false} Walk(s: State, c: nat, n: nat) returns (ts: seq<nat>)
    requires Inv(s) && AllClosed(s) && AtRest(s) && Unfinished(s, c)
    requires forall i :: !Starved(s, i)
    ensures |ts| == n && Chain(s, ts)
    ensures forall k :: 0 <= k < n ==> s.tickets[ts[k]].status.Registered? && s.Has(s.tickets[ts[k]].dependent)
    ensures n > 0 ==> s.tickets[ts[0]].dependent == c
    decreases n
  {
    if n == 0 {
      ts := [];
    } else {
      var i := UnfinishedWaits(s, c);
      var rest := Walk(s, s.tickets[i].blocker, n - 1);
      ts := [i] + rest;
      forall k | 0 <= k < |ts| - 1 ensures s.tickets[ts[k]].blocker == s.tickets[ts[k + 1]].dependent {
        if k > 0 {
          assert s.tickets[rest[k - 1]].blocker == s.tickets[rest[k]].dependent;
        }
      }
    }
  }

  lemma {:induction false} DistinctSize(xs: seq<nat>, m: nat)
    requires forall k :: 0 <= k < |xs| ==> xs[k] < m
    requires Distinct(xs)
    ensures |xs| <= m
  {
    var elems := set k | 0 <= k < |xs| :: xs[k];
    SetSize(xs);
    BelowSize(m);
    assert elems <= Below(m);
    SubsetSize(elems, Below(m));
  }

  lemma {:induction false} SetSize(xs: seq<nat>)
    requires Distinct(xs)
    ensures |set k | 0 <= k < |xs| :: xs[k]| == |xs|
  {
    if xs != [] {
      var front, last := xs[..|xs| - 1], xs[|xs| - 1];
      SetSize(front);
      var a, b := set k | 0 <= k < |front| :: front[k], set k | 0 <= k < |xs| :: xs[k];
      assert b == a + {last} by {
        forall x | x in b ensures x in a + {last} {
          var k :| 0 <= k < |xs| && xs[k] == x;
          assert k < |front| ==> front[k] == x;
        }
        forall x | x in a ensures x in b {
          var k :| 0 <= k < |front| && front[k] == x;
          assert xs[k] == x;
        }
        assert xs[|xs| - 1] == last;
      }
      assert last !in a;
    }
  }

  lemma {:induction false} SubsetSize<T>(a: set<T>, b: set<T>)
    requires a <= b
    ensures |a| <= |b|
    decreases a
  {
    if a != {} {
      var x :| x in a;
      SubsetSize(a - {x}, b - {x});
    }
  }

  /** A long enough walk comes back to a context. */
  lemma Repeats(s: State, ts: seq<nat>) returns (p: nat, q: nat)
    requires Chain(s, ts) && |ts| > |s.ctxs|
    requires forall k :: 0 <= k < |ts| ==> s.Has(s.tickets[ts[k]].dependent)
    ensures p < q < |ts| && s.tickets[ts[p]].dependent == s.tickets[ts[q]].dependent
  {
    var ds := seq(|ts|, k requires 0 <= k < |ts| => s.tickets[ts[k]].dependent);
    if Distinct(ds) {
      DistinctSize(ds, |s.ctxs|);
    }
    p, q :| 0 <= p < q < |ds| && ds[p] == ds[q];
  }

  lemma CycleFromWalk(s: State, ts: seq<nat>) returns (cycle: seq<nat>)
    requires Chain(s, ts) && |ts| > |s.ctxs|
    requires forall k :: 0 <= k < |ts| ==> s.tickets[ts[k]].status.Registered? && s.Has(s.tickets[ts[k]].dependent)
    ensures Cycle(s, cycle)
  {
    var p, q := Repeats(s, ts);
    cycle := ts[p..q];
    forall k | 0 <= k < |cycle| ensures cycle[k] < |s.tickets| && s.tickets[cycle[k]].status.Registered? {
      assert cycle[k] == ts[p + k];
    }
    forall k | 0 <= k < |cycle| - 1 ensures s.tickets[cycle[k]].blocker == s.tickets[cycle[k + 1]].dependent {
      assert cycle[k] == ts[p + k] && cycle[k + 1] == ts[p + k + 1];
    }
    assert cycle[|cycle| - 1] == ts[q - 1] && s.tickets[ts[q - 1]].blocker == s.tickets[ts[q]].dependent;
  }

  /** A starved context does not finish. */
  lemma StarvedUnfinished(s: State, i: nat)
    requires Inv(s) && Starved(s, i)
    ensures Unfinished(s, s.tickets[i].dependent)
  {
    assert TicketOk(s, i) && StartedOk(s, i);
    assert ContextOk(s.ctxs[s.tickets[i].dependent]);
  }

  /** No context of a cycle starts, and so none finishes. */
  lemma CycleUnfinished(s: State, ts: seq<nat>)
    requires Inv(s) && Cycle(s, ts)
    ensures Unfinished(s, s.tickets[ts[0]].dependent)
  {
    var c, last := s.tickets[ts[0]].dependent, ts[|ts| - 1];
    assert TicketOk(s, last) && TicketOk(s, ts[0]);
    assert ContextOk(s.ctxs[c]);
    if Started(s, c) {
      ChainRunsFirst(s, ts);
    }
  }

  /** A system whose contexts are all closed comes to rest with a context unfinalized
      exactly when a context with something to finalize depended on a closed one, or
      dependencies form a cycle. */
  lemma RestsUnfinishedIff(s: State)
    requires Reachable(s) && AllClosed(s) && AtRest(s)
    ensures (exists c :: Unfinished(s, c)) <==> (exists i :: Starved(s, i)) || (exists ts :: Cycle(s, ts))
  {
    InvReachable(s);
    if i :| Starved(s, i) {
      StarvedUnfinished(s, i);
    }
    if ts :| Cycle(s, ts) {
      CycleUnfinished(s, ts);
    }
    if c :| Unfinished(s, c) {
      if forall i :: !Starved(s, i) {
        var ts := Walk(s, c, |s.ctxs| + 1);
        var cycle := CycleFromWalk(s, ts);
      }
    }
  }

  // ---- and it does come to rest --------------------------------------------

  /** How many internal steps a closed context can still take. */
  function Weight(x: Context): nat {
    match x.phase
    case Open => 0
    case Marked => |x.accepted| + 3
    case Waiting => |x.accepted| + 2
    case Running => if x.next <= |x.accepted| then |x.accepted| - x.next + 1 else 0
    case Finished => 0
  }

  function Rank(ctxs: seq<Context>): nat {
    if ctxs == [] then 0 else Rank(ctxs[..|ctxs| - 1]) + Weight(ctxs[|ctxs| - 1])
  }

  lemma {:induction false} RankUpdate(ctxs: seq<Context>, c: nat, x: Context)
    requires c < |ctxs|
    ensures Rank(ctxs[c := x]) == Rank(ctxs) - Weight(ctxs[c]) + Weight(x)
  {
    var ctxs' := ctxs[c := x];
    var front := ctxs[..|ctxs| - 1];
    if c < |front| {
      RankUpdate(front, c, x);
      assert ctxs'[..|ctxs'| - 1] == front[c := x];
    } else {
      assert ctxs'[..|ctxs'| - 1] == front;
    }
  }

  /** A callback does not change what its dependent can do by itself. */
  lemma CallbackKeepsRank(ctxs: seq<Context>, d: nat, wg: int)
    requires d < |ctxs|
    ensures Rank(ctxs[d := ctxs[d].(wg := wg)]) == Rank(ctxs)
  {
    RankUpdate(ctxs, d, ctxs[d].(wg := wg));
  }

  lemma RunOneLowersRank(s: State, c: nat)
    requires Enabled(s, RunNext(c)) && ContextOk(s.ctxs[c])
    ensures Rank(RunOne(s, c).ctxs) < Rank(s.ctxs)
  {
    var x := s.ctxs[c];
    var f := x.captured[x.next];
    var x' := x.(next := x.next + 1, executed := x.executed + [f]);
    var ctxs := s.ctxs[c := x'];
    assert Rank(ctxs) < Rank(s.ctxs) by {
      RankUpdate(s.ctxs, c, x');
    }
    if f.Callback? {
      CallbackKeepsRank(ctxs, f.dependent, ctxs[f.dependent].wg - 1);
    }
  }

  /** In a closed system no DependsOn is under way. */
  lemma ClosedAddsNothing(s: State, c: nat)
    requires Inv(s) && AllClosed(s) && s.Has(c)
    ensures s.ctxs[c].adding.None?
  {
    if s.ctxs[c].adding.Some? {
      AddingIsOpenRoot(s, c);
    }
  }

  lemma AddingIsOpenRoot(s: State, c: nat)
    requires Inv(s) && s.Has(c) && s.ctxs[c].adding.Some?
    ensures s.ctxs[c].parent.None? && s.ctxs[c].phase.Open?
  {
    assert ContextOk(s.ctxs[c]) && AddingOk(s, c);
    assert TicketOk(s, s.ctxs[c].adding.value);
  }

  /** Every internal step of a closed system lowers the rank and leaves it closed. */
  lemma InternalStepLowersRank(s: State, a: Action)
    requires Inv(s) && AllClosed(s) && Internal(a) && Enabled(s, a)
    ensures AllClosed(Step(s, a)) && Rank(Step(s, a).ctxs) < Rank(s.ctxs)
  {
    ClosedAddsNothing(s, a.c);
    assert ContextOk(s.ctxs[a.c]);
    if a.RunNext? {
      RunOneStaysClosed(s, a.c);
      RunOneLowersRank(s, a.c);
    } else {
      OwnStepLowersRank(s, a);
    }
  }

  lemma RunOneStaysClosed(s: State, c: nat)
    requires Inv(s) && AllClosed(s) && Enabled(s, RunNext(c))
    ensures AllClosed(RunOne(s, c))
  {
    RunOneShape(s, c);
  }

  lemma OwnStepLowersRank(s: State, a: Action)
    requires Enabled(s, a) && (a.Capture? || a.Start? || a.Finish?)
    requires ContextOk(s.ctxs[a.c]) && AllClosed(s)
    ensures AllClosed(Step(s, a)) && Rank(Step(s, a).ctxs) < Rank(s.ctxs)
  {
    OwnStep(s, a);
    RankUpdate(s.ctxs, a.c, Step(s, a).ctxs[a.c]);
  }

  lemma OwnStep(s: State, a: Action)
    requires Enabled(s, a) && (a.Capture? || a.Start? || a.Finish?)
    requires ContextOk(s.ctxs[a.c])
    ensures var s' := Step(s, a);
            && |s'.ctxs| == |s.ctxs| && s'.ctxs == s.ctxs[a.c := s'.ctxs[a.c]]
            && s'.ctxs[a.c].parent == s.ctxs[a.c].parent && s'.ctxs[a.c].Done()
            && Weight(s'.ctxs[a.c]) < Weight(s.ctxs[a.c])
  {
  }

  /** So from a closed system every run of internal steps is at most as long as its rank. */
  lemma {:induction false} InternalRunBounded(s: State, run: seq<Action>, s': State)
    requires Inv(s) && AllClosed(s) && Leads(s, run, s')
    requires forall k :: 0 <= k < |run| ==> Internal(run[k])
    ensures AllClosed(s') && |run| + Rank(s'.ctxs) <= Rank(s.ctxs)
    decreases |run|
  {
    if run != [] {
      InternalStepLowersRank(s, run[0]);
      InvStep(s, run[0]);
      InternalRunBounded(Step(s, run[0]), run[1..], s');
    }
  }

  /** Progress: in a closed system without dropped dependencies and without cycles, as long
      as a context is unfinalized some step is possible, and every run of such steps is
      bounded by the rank. */
  lemma ClosedSystemFinalizes(s: State, run: seq<Action>, s': State)
    requires Reachable(s) && AllClosed(s) && Leads(s, run, s')
    requires forall k :: 0 <= k < |run| ==> Internal(run[k])
    requires forall i :: 0 <= i < |s'.tickets| ==> !s'.tickets[i].status.Dropped?
    requires forall ts :: !Cycle(s', ts)
    ensures |run| <= Rank(s.ctxs)
    ensures (exists c :: Unfinished(s', c)) ==> exists a :: Internal(a) && Enabled(s', a)
  {
    InvReachable(s);
    InternalRunBounded(s, run, s');
    InvRun(s, run, s');
    if c :| Unfinished(s', c) {
      if AtRest(s') {
        var ts := Walk(s', c, |s'.ctxs| + 1);
        var cycle := CycleFromWalk(s', ts);
      }
    }
  }

  // ---- a DependsOn that never returns ---------------------------------------

  /** The tickets of DependsOn calls under way, each waiting for the lock that the next one
      holds, from that of c on until one waits for a lock held earlier in the row. */
  ghost predicate LockLoop(s: State, c: nat, ts: seq<nat>) {
    LockChain(s, c, ts) && exists p :: 0 <= p < |ts| && s.tickets[ts[|ts| - 1]].blocker == s.tickets[ts[p]].dependent
  }

  ghost predicate LockChain(s: State, c: nat, ts: seq<nat>) {
    && ts != [] && Chain(s, ts) && s.tickets[ts[0]].dependent == c
    && forall k :: 0 <= k < |ts| ==> s.tickets[ts[k]].status.Adding?
  }

  /** Contexts in the middle of DependsOn that wait for each other's locks only. */
  ghost predicate Stuck(s: State, held: set<nat>) {
    forall d :: d in held ==> WaitsIn(s, held, d)
  }

  ghost predicate WaitsIn(s: State, held: set<nat>, d: nat) {
    && s.Has(d) && s.ctxs[d].adding.Some? && s.ctxs[d].adding.value < |s.tickets|
    && s.tickets[s.ctxs[d].adding.value].blocker in held
  }

  /** Only the second half of DependsOn gives its lock back. */
  lemma LockKept(s: State, a: Action, d: nat)
    requires Inv(s) && Enabled(s, a) && s.Has(d) && s.ctxs[d].adding.Some? && a != DependsOnRegister(d)
    ensures Step(s, a).Has(d) && Step(s, a).ctxs[d].adding == s.ctxs[d].adding
  {
    match a
    case RegisterFin(c, f) => RootStep(s, c, f, c);
    case DependsOn(c, blocker) => DependsOnLockKept(s, c, blocker, d);
    case CloseMark(c) => RootStep(s, c, Finalizer(0), c);
    case RunNext(c) => RunOneShape(s, c);
    case _ =>
  }

  lemma DependsOnLockKept(s: State, c: nat, blocker: nat, d: nat)
    requires ParentsOlder(s) && Enabled(s, DependsOn(c, blocker)) && s.Has(d) && s.ctxs[d].adding.Some?
    ensures var s' := BeginDependsOn(s, c, blocker); s'.Has(d) && s'.ctxs[d].adding == s.ctxs[d].adding
  {
    RootStep(s, c, Finalizer(0), blocker);
  }

  /** A step leaves the lock of a stuck context where it is. */
  lemma StuckStep(s: State, held: set<nat>, a: Action, d: nat)
    requires Inv(s) && Stuck(s, held) && Enabled(s, a) && d in held
    ensures s.Has(d) && Step(s, a).Has(d) && Step(s, a).ctxs[d].adding == s.ctxs[d].adding
    ensures WaitsIn(Step(s, a), held, d)
  {
    assert WaitsIn(s, held, d);
    var i := s.ctxs[d].adding.value;
    assert a != DependsOnRegister(d) by {
      assert WaitsIn(s, held, s.tickets[i].blocker);
    }
    LockKept(s, a, d);
    StepGrows(s, a);
    assert TicketGrows(s.tickets[i], Step(s, a).tickets[i]);
  }

  lemma {:induction false} StuckForever(s: State, held: set<nat>, run: seq<Action>, s': State, d: nat)
    requires Inv(s) && Stuck(s, held) && Leads(s, run, s') && d in held
    ensures s.Has(d) && s'.Has(d) && s'.ctxs[d].adding == s.ctxs[d].adding
    decreases |run|
  {
    assert WaitsIn(s, held, d);
    if run != [] {
      var s1 := Step(s, run[0]);
      forall e | e in held ensures WaitsIn(s1, held, e) {
        StuckStep(s, held, run[0], e);
      }
      StuckStep(s, held, run[0], d);
      InvStep(s, run[0]);
      StuckForever(s1, held, run[1..], s', d);
    }
  }

  lemma LoopIsStuck(s: State, c: nat, ts: seq<nat>) returns (held: set<nat>)
    requires Inv(s) && LockLoop(s, c, ts)
    ensures c in held && Stuck(s, held)
  {
    held := set k | 0 <= k < |ts| :: s.tickets[ts[k]].dependent;
    var p :| 0 <= p < |ts| && s.tickets[ts[|ts| - 1]].blocker == s.tickets[ts[p]].dependent;
    forall d | d in held ensures WaitsIn(s, held, d) {
      var k :| 0 <= k < |ts| && s.tickets[ts[k]].dependent == d;
      assert TicketOk(s, ts[k]);
      var next := if k < |ts| - 1 then k + 1 else p;
      assert s.tickets[ts[k]].blocker == s.tickets[ts[next]].dependent;
    }
  }

  /** The lock that the last of the row waits for is free. */
  ghost predicate LockFree(s: State, c: nat, ts: seq<nat>) {
    LockChain(s, c, ts) && var b := s.tickets[ts[|ts| - 1]].blocker; s.Has(b) && s.ctxs[b].adding.None?
  }

  lemma LastGetsLock(s: State, c: nat, ts: seq<nat>)
    requires Inv(s) && LockFree(s, c, ts)
    ensures Enabled(s, DependsOnRegister(s.tickets[ts[|ts| - 1]].dependent))
  {
    var last := ts[|ts| - 1];
    assert TicketOk(s, last);
  }

  /** Then the second halves happen, from the last of the row to its first. */
  lemma {:induction false} Unwind(s: State, c: nat, ts: seq<nat>) returns (run: seq<Action>, s': State)
    requires Inv(s) && LockFree(s, c, ts)
    ensures Leads(s, run, s') && s.Has(c) && s'.Has(c) && s.ctxs[c].adding == Some(ts[0]) && s'.ctxs[c].adding == None
    decreases |ts|
  {
    var last := ts[|ts| - 1];
    var e := s.tickets[last].dependent;
    assert TicketOk(s, ts[0]) && TicketOk(s, last);
    LastGetsLock(s, c, ts);
    var s1 := Step(s, DependsOnRegister(e));
    InvStep(s, DependsOnRegister(e));
    if |ts| == 1 {
      run, s' := [DependsOnRegister(e)], s1;
    } else {
      var rest := ts[..|ts| - 1];
      RestIsFree(s, c, ts);
      run, s' := Unwind(s1, c, rest);
      assert ([DependsOnRegister(e)] + run)[1..] == run;
      run := [DependsOnRegister(e)] + run;
      assert TicketOk(s, ts[0]);
    }
  }

  /** The tickets under way of different contexts are different; so the others of the row
      are as they were when the last is through. */
  lemma RestIsFree(s: State, c: nat, ts: seq<nat>)
    requires Inv(s) && LockFree(s, c, ts) && |ts| > 1
    ensures var e := s.tickets[ts[|ts| - 1]].dependent;
            Enabled(s, DependsOnRegister(e)) && LockFree(Step(s, DependsOnRegister(e)), c, ts[..|ts| - 1])
  {
    LastGetsLock(s, c, ts);
    var last, rest := ts[|ts| - 1], ts[..|ts| - 1];
    var e := s.tickets[last].dependent;
    var s1 := Step(s, DependsOnRegister(e));
    assert TicketOk(s, last) && AddingOk(s, e);
    forall k | 0 <= k < |rest| ensures rest[k] != last {
      if rest[k] == last {
        BackToLast(s, c, ts, k);
      }
    }
    assert s.tickets[rest[|rest| - 1]].blocker == e;
  }

  /** A row that passes its last ticket earlier would wait for a lock that is held. */
  lemma BackToLast(s: State, c: nat, ts: seq<nat>, k: nat)
    requires Inv(s) && LockFree(s, c, ts) && k < |ts| - 1
    ensures ts[k] != ts[|ts| - 1]
  {
    assert s.tickets[ts[k]].blocker == s.tickets[ts[k + 1]].dependent;
    assert TicketOk(s, ts[k + 1]);
  }

  /** Following the locks from c either ends at a free one or goes on. */
  lemma {:induction false} FollowLocks(s: State, c: nat, n: nat) returns (ts: seq<nat>)
    requires Inv(s) && s.Has(c) && s.ctxs[c].adding.Some?
    ensures LockFree(s, c, ts) || (LockChain(s, c, ts) && |ts| == n + 1)
    ensures forall k :: 0 <= k < |ts| ==> s.Has(s.tickets[ts[k]].dependent)
    decreases n
  {
    var i := s.ctxs[c].adding.value;
    assert AddingOk(s, c) && TicketOk(s, i);
    var b := s.tickets[i].blocker;
    if n == 0 || s.ctxs[b].adding.None? {
      ts := [i];
    } else {
      var rest := FollowLocks(s, b, n - 1);
      ts := [i] + rest;
      forall k | 0 <= k < |ts| - 1 ensures s.tickets[ts[k]].blocker == s.tickets[ts[k + 1]].dependent {
        if k > 0 {
          assert s.tickets[rest[k - 1]].blocker == s.tickets[rest[k]].dependent;
        }
      }
    }
  }

  lemma LoopFromChain(s: State, c: nat, ts: seq<nat>) returns (loop: seq<nat>)
    requires LockChain(s, c, ts) && |ts| > |s.ctxs|
    requires forall k :: 0 <= k < |ts| ==> s.Has(s.tickets[ts[k]].dependent)
    ensures LockLoop(s, c, loop)
  {
    var p, q := Repeats(s, ts);
    loop := ts[..q];
    assert s.tickets[ts[q - 1]].blocker == s.tickets[ts[q]].dependent;
    assert s.tickets[loop[|loop| - 1]].blocker == s.tickets[loop[p]].dependent;
  }

  /** Some run leads from s to s'. */
  ghost predicate Continues(s: State, s': State) {
    exists run :: Leads(s, run, s')
  }

  /** In s' the DependsOn on c that was under way in s still is, and c is open. */
  ghost predicate StillHeld(s: State, c: nat, s': State) {
    s.Has(c) && s'.Has(c) && s'.ctxs[c].adding == s.ctxs[c].adding && s'.ctxs[c].phase.Open?
  }

  /** A DependsOn that holds its context's lock never gets its second half, whatever
      happens, exactly when locks held by such calls form a loop that it runs into; its
      context then stays open for ever. */
  lemma HangsIff(s: State, c: nat)
    requires Reachable(s) && s.Has(c) && s.ctxs[c].adding.Some?
    ensures (exists ts :: LockLoop(s, c, ts)) <==> forall s' :: Continues(s, s') ==> StillHeld(s, c, s')
  {
    InvReachable(s);
    if ts :| LockLoop(s, c, ts) {
      forall s' | Continues(s, s') ensures StillHeld(s, c, s') {
        var run :| Leads(s, run, s');
        LoopHolds(s, c, ts, run, s');
      }
    } else {
      var s' := Returns(s, c);
      assert Continues(s, s');
    }
  }

  lemma Returns(s: State, c: nat) returns (s': State)
    requires Inv(s) && s.Has(c) && s.ctxs[c].adding.Some?
    requires forall ts :: !LockLoop(s, c, ts)
    ensures Continues(s, s') && !StillHeld(s, c, s')
  {
    var ts := FollowLocks(s, c, |s.ctxs|);
    if !LockFree(s, c, ts) {
      var loop := LoopFromChain(s, c, ts);
      assert false;
    }
    var run: seq<Action>;
    run, s' := Unwind(s, c, ts);
  }

  lemma LoopHolds(s: State, c: nat, ts: seq<nat>, run: seq<Action>, s': State)
    requires Inv(s) && LockLoop(s, c, ts) && Leads(s, run, s')
    ensures StillHeld(s, c, s')
  {
    var held := LoopIsStuck(s, c, ts);
    assert WaitsIn(s, held, c);
    StuckForever(s, held, run, s', c);
    InvRun(s, run, s');
    assert ContextOk(s'.ctxs[c]);
  }

  // ---- runs from the initial state -----------------------------------------

  /** One step further. */
  lemma Reached(s: State, a: Action, s': State)
    requires Reachable(s) && Enabled(s, a) && Step(s, a) == s'
    ensures Reachable(s')
  {
    var run :| Leads(INITIAL, run, s);
    LeadsSnoc(INITIAL, run, s, a);
  }

  const TWO: State := State([FRESH, FRESH], [], 0)

  lemma TwoReachable()
    ensures Reachable(TWO)
  {
    assert Leads(INITIAL, [], INITIAL);
    Reached(INITIAL, NewContext, State([FRESH], [], 0));
    Reached(State([FRESH], [], 0), NewContext, TWO);
  }

  // A dependency on a closed context.

  const CLOSED: Context := FRESH.(phase := Finished)

  const REGISTERED: Context := FRESH.(finalizeables := [Finalizer(7)], accepted := [Finalizer(7)])

  const WAITING: Context :=
    Context(None, Waiting, 1, [], [Finalizer(7)], 0, None, [Finalizer(7)], [], 0)

  const STARVED: State := State([WAITING, CLOSED], [Ticket(0, 1, Dropped)], 0)

  lemma ClosedBlockerReachable()
    ensures Reachable(State([REGISTERED, CLOSED], [], 0))
  {
    TwoReachable();
    var marked := State([FRESH, FRESH.(phase := Marked)], [], 0);
    Reached(TWO, CloseMark(1), marked);
    Reached(marked, Capture(1), State([FRESH, CLOSED], [], 0));
    assert [] + [Finalizer(7)] == [Finalizer(7)];
    Reached(State([FRESH, CLOSED], [], 0), RegisterFin(0, Finalizer(7)), State([REGISTERED, CLOSED], [], 0));
  }

  /** It depends on the closed context, which drops it. */
  lemma DroppedReachable()
    ensures Reachable(State([REGISTERED.(wg := 1), CLOSED], [Ticket(0, 1, Dropped)], 0))
  {
    ClosedBlockerReachable();
    var adding := State([REGISTERED.(wg := 1, adding := Some(0)), CLOSED], [Ticket(0, 1, Adding)], 0);
    Reached(State([REGISTERED, CLOSED], [], 0), DependsOn(0, 1), adding);
    Reached(adding, DependsOnRegister(0), State([REGISTERED.(wg := 1), CLOSED], [Ticket(0, 1, Dropped)], 0));
  }

  /** One context registers a finalizer and depends on another one that is closed already;
      both are closed, and the system is at rest with the first unfinalized. */
  lemma ClosedBlockerStarves()
    ensures Reachable(STARVED) && AllClosed(STARVED) && AtRest(STARVED)
    ensures Unfinished(STARVED, 0) && Starved(STARVED, 0)
  {
    DroppedReachable();
    var marked := State([REGISTERED.(wg := 1, phase := Marked), CLOSED], [Ticket(0, 1, Dropped)], 0);
    Reached(State([REGISTERED.(wg := 1), CLOSED], [Ticket(0, 1, Dropped)], 0), CloseMark(0), marked);
    Reached(marked, Capture(0), STARVED);
  }

  // Two contexts that depend on each other, one after the other.

  function Mutual(phase: Phase, dependent: nat): Context {
    FRESH.(phase := phase, wg := 1, finalizeables := [Callback(dependent, dependent)], accepted := [Callback(dependent, dependent)])
  }

  function MutualWaiting(dependent: nat): Context {
    Mutual(Waiting, dependent).(finalizeables := [], captured := [Callback(dependent, dependent)])
  }

  const FIRST_TICKET: Ticket := Ticket(0, 1, Registered(0))

  const BOTH: seq<Ticket> := [FIRST_TICKET, Ticket(1, 0, Registered(0))]

  const CYCLIC: State := State([MutualWaiting(1), MutualWaiting(0)], BOTH, 0)

  /** The first depends on the second. */
  lemma FirstDepends()
    ensures Reachable(State([FRESH.(wg := 1), Mutual(Open, 0).(wg := 0)], [FIRST_TICKET], 0))
  {
    TwoReachable();
    var adding := State([FRESH.(wg := 1, adding := Some(0)), FRESH], [Ticket(0, 1, Adding)], 0);
    Reached(TWO, DependsOn(0, 1), adding);
    assert [] + [Callback(0, 0)] == [Callback(0, 0)];
    Reached(adding, DependsOnRegister(0), State([FRESH.(wg := 1), Mutual(Open, 0).(wg := 0)], [FIRST_TICKET], 0));
  }

  /** Then the second depends on the first. */
  lemma BothDepend()
    ensures Reachable(State([Mutual(Open, 1), Mutual(Open, 0)], BOTH, 0))
  {
    FirstDepends();
    var one := State([FRESH.(wg := 1), Mutual(Open, 0).(wg := 0)], [FIRST_TICKET], 0);
    var adding := State([FRESH.(wg := 1), Mutual(Open, 0).(adding := Some(1))], [FIRST_TICKET, Ticket(1, 0, Adding)], 0);
    assert [FIRST_TICKET] + [Ticket(1, 0, Adding)] == [FIRST_TICKET, Ticket(1, 0, Adding)];
    Reached(one, DependsOn(1, 0), adding);
    assert [] + [Callback(1, 1)] == [Callback(1, 1)];
    Reached(adding, DependsOnRegister(1), State([Mutual(Open, 1), Mutual(Open, 0)], BOTH, 0));
  }

  lemma CyclicReachable()
    ensures Reachable(CYCLIC)
  {
    BothDepend();
    var s1 := State([Mutual(Marked, 1), Mutual(Open, 0)], BOTH, 0);
    var s2 := State([MutualWaiting(1), Mutual(Open, 0)], BOTH, 0);
    var s3 := State([MutualWaiting(1), Mutual(Marked, 0)], BOTH, 0);
    Reached(State([Mutual(Open, 1), Mutual(Open, 0)], BOTH, 0), CloseMark(0), s1);
    Reached(s1, Capture(0), s2);
    Reached(s2, CloseMark(1), s3);
    Reached(s3, Capture(1), CYCLIC);
  }

  /** Both are closed; each waits for the other, and the system is at rest. */
  lemma MutualDependencyStarves()
    ensures Reachable(CYCLIC) && AllClosed(CYCLIC) && AtRest(CYCLIC)
    ensures Unfinished(CYCLIC, 0) && Unfinished(CYCLIC, 1) && Cycle(CYCLIC, [0, 1])
    ensures forall i :: !Starved(CYCLIC, i)
  {
    CyclicReachable();
  }

  // Calls of DependsOn that wait for locks.

  const SELF: State := State([FRESH.(wg := 1, adding := Some(0))], [Ticket(0, 0, Adding)], 0)

  const CROSSED: State := State(
    [FRESH.(wg := 1, adding := Some(0)), FRESH.(wg := 1, adding := Some(1))],
    [Ticket(0, 1, Adding), Ticket(1, 0, Adding)], 0)

  /** A context that depends on itself waits for its own lock. */
  lemma SelfDependencyHangs()
    ensures Reachable(SELF) && LockLoop(SELF, 0, [0])
  {
    assert Leads(INITIAL, [], INITIAL);
    Reached(INITIAL, NewContext, State([FRESH], [], 0));
    Reached(State([FRESH], [], 0), DependsOn(0, 0), SELF);
  }

  /** Two contexts that depend on each other at the same time wait for each other's lock. */
  lemma CrossedDependenciesHang()
    ensures Reachable(CROSSED) && LockLoop(CROSSED, 0, [0, 1])
  {
    TwoReachable();
    var one := State([FRESH.(wg := 1, adding := Some(0)), FRESH], [Ticket(0, 1, Adding)], 0);
    Reached(TWO, DependsOn(0, 1), one);
    assert [Ticket(0, 1, Adding)] + [Ticket(1, 0, Adding)] == CROSSED.tickets;
    Reached(one, DependsOn(1, 0), CROSSED);
    assert CROSSED.tickets[[0, 1][1]].blocker == CROSSED.tickets[[0, 1][0]].dependent;
  }
}
