/**
 Closing contexts that depend on each other (context/context.go), as interleaved steps
 over any number of contexts without pooling.

 Every step is one critical section, or one statement that runs outside the lock:

   - DependsOn holds the dependent's lock while it registers with the blocker, and the
     two halves are separate steps;
   - close marks the context under the lock, captures the finalizeables outside it, waits
     for the wait group, and then calls the finalizers one by one.

 Each DependsOn that finds its context open is numbered by a ticket.  Tickets, the
 `accepted` and `executed` histories and the start order are bookkeeping: no step looks
 at them.
 */
module ContextProtocol {
  import opened Common

  /** What can be registered: a finalizer or closer of a user, or a context that depends
      on this one and wants to be called back. */
  datatype Fin =
    | Finalizer(tag: int)
    | Closer(tag: int)
    | Callback(dependent: nat, ticket: nat)

  datatype Phase =
    | Open
    | Marked    // done is set, the finalizeables are not captured yet
    | Waiting   // finalize waits for the wait group
    | Running   // finalize calls the finalizers
    | Finished

  datatype Context = Context(
    parent: Option<nat>,
    phase: Phase,
    wg: int,
    finalizeables: seq<Fin>,  // empty is nil: a list that was allocated has an element
    captured: seq<Fin>,
    next: nat,
    adding: Option<nat>,      // the ticket of the DependsOn that holds the lock
    accepted: seq<Fin>,
    executed: seq<Fin>,
    order: nat)               // the how-manieth context to start its finalizers; 0 is not yet
  {
    predicate Done() {
      phase != Open
    }
  }

  datatype Status =
    | Adding
    | Registered(place: nat)  // the place among the blocker's accepted registrations
    | Dropped                 // the blocker was closed already

  datatype Ticket = Ticket(dependent: nat, blocker: nat, status: Status)

  datatype State = State(ctxs: seq<Context>, tickets: seq<Ticket>, starts: nat) {

    predicate Has(c: nat) {
      c < |ctxs|
    }

    function Put(c: nat, x: Context): State
      requires Has(c)
    {
      this.(ctxs := ctxs[c := x])
    }
  }

  const FRESH: Context := Context(None, Open, 0, [], [], 0, None, [], [], 0)

  const INITIAL: State := State([], [], 0)

  // ---- parents -------------------------------------------------------------

  /** A parent is older than its child. */
  ghost predicate ParentsOlder(s: State) {
    forall c :: 0 <= c < |s.ctxs| && s.ctxs[c].parent.Some? ==> s.ctxs[c].parent.value < c
  }

  /** The context at the end of the parent chain. */
  function Root(s: State, c: nat): (r: nat)
    requires s.Has(c)
    ensures s.Has(r) && r <= c
    decreases c
  {
    match s.ctxs[c].parent
    case Some(p) => if p < c then Root(s, p) else c
    case None => c
  }

  lemma {:induction false} RootHasNoParent(s: State, c: nat)
    requires s.Has(c) && ParentsOlder(s)
    ensures s.ctxs[Root(s, c)].parent.None? && Root(s, Root(s, c)) == Root(s, c)
    decreases c
  {
    if s.ctxs[c].parent.Some? {
      RootHasNoParent(s, s.ctxs[c].parent.value);
    }
  }

  // ---- critical sections of one context ------------------------------------

  /** registerFinalizeable */
  function RegisterAt(x: Context, f: Fin): Context {
    if x.Done() then x else x.(finalizeables := x.finalizeables + [f], accepted := x.accepted + [f])
  }

  /** The locked part of close. */
  function MarkAt(x: Context): Context {
    if x.Done() then x else x.(phase := Marked)
  }

  /** close after the lock: no finalizeables, no waiting. */
  function CaptureAt(x: Context): Context {
    if x.finalizeables == [] then x.(phase := Finished)
    else x.(phase := Waiting, captured := x.finalizeables, finalizeables := [])
  }

  // ---- the public methods, forwarded to the parent -------------------------

  function IsClosed(s: State, c: nat): bool
    requires s.Has(c)
    decreases c
  {
    match s.ctxs[c].parent
    case Some(p) => if p < c then IsClosed(s, p) else s.ctxs[c].Done()
    case None => s.ctxs[c].Done()
  }

  function Register(s: State, c: nat, f: Fin): State
    requires s.Has(c)
    decreases c
  {
    match s.ctxs[c].parent
    case Some(p) => if p < c then Register(s, p, f) else s
    case None => s.Put(c, RegisterAt(s.ctxs[c], f))
  }

  /** Close; a child asks its parent first whether it is closed. */
  function Close(s: State, c: nat): State
    requires s.Has(c)
    decreases c
  {
    match s.ctxs[c].parent
    case Some(p) => if p < c && !IsClosed(s, p) then Close(s, p) else s
    case None => s.Put(c, MarkAt(s.ctxs[c]))
  }

  /** The first half of DependsOn. */
  function BeginDependsOn(s: State, c: nat, blocker: nat): State
    requires s.Has(c) && s.Has(blocker)
    decreases c
  {
    match s.ctxs[c].parent
    case Some(p) => if p < c then BeginDependsOn(s, p, blocker) else s
    case None =>
      var x := s.ctxs[c];
      if x.Done() then s
      else
        var t := Ticket(c, Root(s, blocker), Adding);
        s.Put(c, x.(wg := x.wg + 1, adding := Some(|s.tickets|))).(tickets := s.tickets + [t])
  }

  /** A child at any depth acts exactly as its root does. */
  lemma {:induction false} ChildActsAsRoot(s: State, c: nat, f: Fin, blocker: nat)
    requires s.Has(c) && s.Has(blocker) && ParentsOlder(s)
    ensures IsClosed(s, c) == s.ctxs[Root(s, c)].Done()
    ensures Register(s, c, f) == Register(s, Root(s, c), f)
    ensures Close(s, c) == Close(s, Root(s, c))
    ensures BeginDependsOn(s, c, blocker) == BeginDependsOn(s, Root(s, c), blocker)
    decreases c
  {
    RootHasNoParent(s, c);
    if s.ctxs[c].parent.Some? {
      var p := s.ctxs[c].parent.value;
      ChildActsAsRoot(s, p, f, blocker);
      if IsClosed(s, p) {
        var r := Root(s, c);
        assert Close(s, r) == s.Put(r, s.ctxs[r]) == s;
      }
    }
  }

  // ---- steps ---------------------------------------------------------------

  datatype Action =
    | NewContext
    | NewChild(c: nat)
    | RegisterFin(c: nat, f: Fin)
    | DependsOn(c: nat, blocker: nat)
    | DependsOnRegister(c: nat)
    | CloseMark(c: nat)
    | Capture(c: nat)
    | Start(c: nat)
    | RunNext(c: nat)
    | Finish(c: nat)

  /** The step can be taken: the lock it needs is free, and the code is at that point. */
  predicate Enabled(s: State, a: Action) {
    match a
    case NewContext => true
    case NewChild(c) => s.Has(c)
    case RegisterFin(c, f) => s.Has(c) && !f.Callback? && s.ctxs[Root(s, c)].adding.None?
    case DependsOn(c, blocker) => s.Has(c) && s.Has(blocker) && s.ctxs[Root(s, c)].adding.None?
    case DependsOnRegister(c) =>
      && s.Has(c) && s.ctxs[c].adding.Some? && s.ctxs[c].adding.value < |s.tickets|
      && var b := s.tickets[s.ctxs[c].adding.value].blocker;
         s.Has(b) && b != c && s.ctxs[b].adding.None?
    case CloseMark(c) => s.Has(c) && s.ctxs[Root(s, c)].adding.None?
    case Capture(c) => s.Has(c) && s.ctxs[c].phase.Marked?
    case Start(c) => s.Has(c) && s.ctxs[c].phase.Waiting? && s.ctxs[c].wg == 0
    case RunNext(c) =>
      && s.Has(c) && s.ctxs[c].phase.Running? && s.ctxs[c].next < |s.ctxs[c].captured|
      && var f := s.ctxs[c].captured[s.ctxs[c].next]; (f.Callback? ==> s.Has(f.dependent))
    case Finish(c) => s.Has(c) && s.ctxs[c].phase.Running? && s.ctxs[c].next == |s.ctxs[c].captured|
  }

  /** The second half of DependsOn: the blocker drops the registration when it is closed. */
  function RegisterDependency(s: State, c: nat): State
    requires Enabled(s, DependsOnRegister(c))
  {
    var i := s.ctxs[c].adding.value;
    var t := s.tickets[i];
    var b := t.blocker;
    var y := s.ctxs[b];
    var status := if y.Done() then Dropped else Registered(|y.accepted|);
    s.Put(b, RegisterAt(y, Callback(c, i)))
     .Put(c, s.ctxs[c].(adding := None))
     .(tickets := s.tickets[i := t.(status := status)])
  }

  /** One finalizer call; calling back a dependent takes one off its wait group. */
  function RunOne(s: State, c: nat): State
    requires Enabled(s, RunNext(c))
  {
    var x := s.ctxs[c];
    var f := x.captured[x.next];
    var s' := s.Put(c, x.(next := x.next + 1, executed := x.executed + [f]));
    if f.Callback? then s'.Put(f.dependent, s'.ctxs[f.dependent].(wg := s'.ctxs[f.dependent].wg - 1)) else s'
  }

  function Step(s: State, a: Action): State
    requires Enabled(s, a)
  {
    match a
    case NewContext => s.(ctxs := s.ctxs + [FRESH])
    case NewChild(c) => s.(ctxs := s.ctxs + [FRESH.(parent := Some(c))])
    case RegisterFin(c, f) => Register(s, c, f)
    case DependsOn(c, blocker) => BeginDependsOn(s, c, blocker)
    case DependsOnRegister(c) => RegisterDependency(s, c)
    case CloseMark(c) => Close(s, c)
    case Capture(c) => s.Put(c, CaptureAt(s.ctxs[c]))
    case Start(c) => s.Put(c, s.ctxs[c].(phase := Running, next := 0, order := s.starts + 1)).(starts := s.starts + 1)
    case RunNext(c) => RunOne(s, c)
    case Finish(c) => s.Put(c, s.ctxs[c].(phase := Finished))
  }

  /** The states that a sequence of steps can lead to. */
  ghost predicate Leads(s: State, run: seq<Action>, s': State)
    decreases |run|
  {
    if run == [] then s' == s
    else Enabled(s, run[0]) && Leads(Step(s, run[0]), run[1..], s')
  }

  ghost predicate Reachable(s: State) {
    exists run :: Leads(INITIAL, run, s)
  }

  lemma {:induction false} LeadsSnoc(s: State, run: seq<Action>, s1: State, a: Action)
    requires Leads(s, run, s1) && Enabled(s1, a)
    ensures Leads(s, run + [a], Step(s1, a))
    decreases |run|
  {
    if run == [] {
      assert Leads(s, [a], Step(s, a));
      assert run + [a] == [a];
    } else {
      LeadsSnoc(Step(s, run[0]), run[1..], s1, a);
      assert (run + [a])[1..] == run[1..] + [a];
    }
  }

  // ---- what every step keeps -----------------------------------------------

  /** A context on its own: what is captured and executed is what was accepted, in order. */
  ghost predicate ContextOk(x: Context) {
    && (x.phase.Open? || x.phase.Marked? ==>
          x.finalizeables == x.accepted && x.executed == [] && x.captured == [])
    && (x.phase.Waiting? ==> x.captured == x.accepted != [] && x.executed == [])
    && (x.phase.Running? ==> x.captured == x.accepted != [] && x.next <= |x.accepted| && x.executed == x.accepted[..x.next])
    && (x.phase.Finished? ==> x.executed == x.accepted)
    && (x.adding.Some? ==> x.phase.Open?)
    && (x.order > 0 <==> x.phase.Running? || (x.phase.Finished? && x.accepted != []))
  }

  ghost predicate ContextsOk(s: State) {
    forall c :: 0 <= c < |s.ctxs| ==> ContextOk(s.ctxs[c]) && s.ctxs[c].order <= s.starts
  }

  ghost predicate TicketOk(s: State, i: nat)
    requires i < |s.tickets|
  {
    var t := s.tickets[i];
    && s.Has(t.dependent) && s.Has(t.blocker)
    && s.ctxs[t.dependent].parent.None? && s.ctxs[t.blocker].parent.None?
    && match t.status
       case Adding => s.ctxs[t.dependent].adding == Some(i)
       case Registered(place) =>
         place < |s.ctxs[t.blocker].accepted| && s.ctxs[t.blocker].accepted[place] == Callback(t.dependent, i)
       case Dropped => s.ctxs[t.blocker].Done()
  }

  /** A callback among the accepted registrations carries the ticket of its DependsOn. */
  ghost predicate CallbackOk(s: State, c: nat, place: nat)
    requires s.Has(c) && place < |s.ctxs[c].accepted|
  {
    var f := s.ctxs[c].accepted[place];
    f.Callback? ==> f.ticket < |s.tickets| && s.tickets[f.ticket] == Ticket(f.dependent, c, Registered(place))
  }

  ghost predicate Linked(s: State) {
    && (forall i :: 0 <= i < |s.tickets| ==> TicketOk(s, i))
    && (forall c, place :: 0 <= c < |s.ctxs| && 0 <= place < |s.ctxs[c].accepted| ==> CallbackOk(s, c, place))
    && (forall c :: 0 <= c < |s.ctxs| && s.ctxs[c].adding.Some? ==> AddingOk(s, c))
  }

  ghost predicate AddingOk(s: State, c: nat)
    requires s.Has(c) && s.ctxs[c].adding.Some?
  {
    var i := s.ctxs[c].adding.value;
    i < |s.tickets| && s.tickets[i].dependent == c && s.tickets[i].status == Adding
  }

  /** The blocker has called back for this ticket. */
  ghost predicate CalledBack(s: State, i: nat)
    requires i < |s.tickets|
  {
    var t := s.tickets[i];
    t.status.Registered? && s.Has(t.blocker) && t.status.place < |s.ctxs[t.blocker].executed|
  }

  ghost predicate Outstanding(s: State, c: nat, i: nat) {
    i < |s.tickets| && s.tickets[i].dependent == c && !CalledBack(s, i)
  }

  ghost function OutstandingSet(s: State, c: nat): set<nat> {
    set i | 0 <= i < |s.tickets| && Outstanding(s, c, i)
  }

  /** The wait group counts the tickets that were not called back. */
  ghost predicate Counted(s: State) {
    forall c :: 0 <= c < |s.ctxs| ==> s.ctxs[c].wg == |OutstandingSet(s, c)|
  }

  /** A context that has started was called back on all its tickets, by contexts that
      started before it. */
  ghost predicate StartedOk(s: State, i: nat)
    requires i < |s.tickets|
  {
    var t := s.tickets[i];
    && s.Has(t.dependent) && s.Has(t.blocker)
    && (s.ctxs[t.dependent].order > 0 ==>
          CalledBack(s, i) && 0 < s.ctxs[t.blocker].order < s.ctxs[t.dependent].order)
  }

  ghost predicate AllStartedOk(s: State) {
    forall i :: 0 <= i < |s.tickets| ==> StartedOk(s, i)
  }

  ghost predicate Inv(s: State) {
    ParentsOlder(s) && ContextsOk(s) && Linked(s) && Counted(s) && AllStartedOk(s)
  }

  // ---- steps that change one context ---------------------------------------

  /** x' differs from x in nothing that other contexts or tickets speak of. */
  ghost predicate Quiet(x: Context, x': Context) {
    && x'.parent == x.parent && x'.wg == x.wg && x'.adding == x.adding
    && x'.accepted == x.accepted && x'.executed == x.executed && x'.order == x.order
    && (x.Done() ==> x'.Done())
  }

  lemma QuietPut(s: State, c: nat, x': Context)
    requires Inv(s) && s.Has(c) && Quiet(s.ctxs[c], x') && ContextOk(x')
    ensures Inv(s.Put(c, x'))
  {
    var s' := s.Put(c, x');
    assert Linked(s') by {
      forall i | 0 <= i < |s'.tickets| ensures TicketOk(s', i) {
        assert TicketOk(s, i);
      }
      forall d, place | 0 <= d < |s'.ctxs| && 0 <= place < |s'.ctxs[d].accepted| ensures CallbackOk(s', d, place) {
        assert CallbackOk(s, d, place);
      }
      forall d | 0 <= d < |s'.ctxs| && s'.ctxs[d].adding.Some? ensures AddingOk(s', d) {
        assert AddingOk(s, d);
      }
    }
    SameCallbacks(s, s');
    assert AllStartedOk(s') by {
      forall i | 0 <= i < |s'.tickets| ensures StartedOk(s', i) {
        assert StartedOk(s, i) && CalledBack(s, i) == CalledBack(s', i);
      }
    }
  }

  /** The wait groups still count when neither they nor the called-back tickets changed. */
  lemma SameCallbacks(s: State, s': State)
    requires |s'.ctxs| == |s.ctxs| && |s'.tickets| == |s.tickets| && Counted(s)
    requires forall c :: 0 <= c < |s.ctxs| ==> s'.ctxs[c].wg == s.ctxs[c].wg
    requires forall i :: 0 <= i < |s.tickets| ==>
               s'.tickets[i].dependent == s.tickets[i].dependent && CalledBack(s', i) == CalledBack(s, i)
    ensures Counted(s')
  {
    forall c | 0 <= c < |s'.ctxs| ensures s'.ctxs[c].wg == |OutstandingSet(s', c)| {
      assert OutstandingSet(s', c) == OutstandingSet(s, c);
    }
  }

  lemma NewContextKeeps(s: State, x: Context)
    requires Inv(s)
    requires x == FRESH || (x.parent.Some? && s.Has(x.parent.value) && x == FRESH.(parent := x.parent))
    ensures Inv(s.(ctxs := s.ctxs + [x]))
  {
    var s' := s.(ctxs := s.ctxs + [x]);
    forall i | 0 <= i < |s'.tickets| ensures TicketOk(s', i) && StartedOk(s', i) && CalledBack(s', i) == CalledBack(s, i) {
      assert TicketOk(s, i) && StartedOk(s, i);
    }
    forall d, place | 0 <= d < |s'.ctxs| && 0 <= place < |s'.ctxs[d].accepted| ensures CallbackOk(s', d, place) {
      assert CallbackOk(s, d, place);
    }
    forall d | 0 <= d < |s'.ctxs| && s'.ctxs[d].adding.Some? ensures AddingOk(s', d) {
      assert AddingOk(s, d);
    }
    forall c | 0 <= c < |s'.ctxs| ensures s'.ctxs[c].wg == |OutstandingSet(s', c)| {
      if c < |s.ctxs| {
        assert OutstandingSet(s', c) == OutstandingSet(s, c);
      } else {
        assert OutstandingSet(s', c) == {} by {
          forall i | 0 <= i < |s.tickets| ensures s.tickets[i].dependent != c {
            assert TicketOk(s, i);
          }
        }
      }
    }
  }

  lemma RegisterKeeps(s: State, c: nat, f: Fin)
    requires Inv(s) && s.Has(c) && !f.Callback?
    ensures Inv(s.Put(c, RegisterAt(s.ctxs[c], f)))
  {
    var s' := s.Put(c, RegisterAt(s.ctxs[c], f));
    assert Linked(s') by {
      forall i | 0 <= i < |s'.tickets| ensures TicketOk(s', i) {
        assert TicketOk(s, i);
      }
      forall d, place | 0 <= d < |s'.ctxs| && 0 <= place < |s'.ctxs[d].accepted| ensures CallbackOk(s', d, place) {
        assert place < |s.ctxs[d].accepted| ==> CallbackOk(s, d, place);
      }
      forall d | 0 <= d < |s'.ctxs| && s'.ctxs[d].adding.Some? ensures AddingOk(s', d) {
        assert AddingOk(s, d);
      }
    }
    SameCallbacks(s, s');
    forall i | 0 <= i < |s'.tickets| ensures StartedOk(s', i) {
      assert StartedOk(s, i) && CalledBack(s, i) == CalledBack(s', i);
    }
  }

  lemma StartLinked(s: State, c: nat)
    requires Linked(s) && Enabled(s, Start(c))
    ensures Linked(Step(s, Start(c)))
  {
    var s' := Step(s, Start(c));
    forall i | 0 <= i < |s'.tickets| ensures TicketOk(s', i) {
      assert TicketOk(s, i);
    }
    forall d, place | 0 <= d < |s'.ctxs| && 0 <= place < |s'.ctxs[d].accepted| ensures CallbackOk(s', d, place) {
      assert CallbackOk(s, d, place);
    }
    forall d | 0 <= d < |s'.ctxs| && s'.ctxs[d].adding.Some? ensures AddingOk(s', d) {
      assert AddingOk(s, d);
    }
  }

  /** Who starts has been called back on all its tickets. */
  lemma StartStarted(s: State, c: nat, i: nat)
    requires Inv(s) && Enabled(s, Start(c)) && i < |s.tickets|
    ensures StartedOk(Step(s, Start(c)), i)
  {
    var s', t := Step(s, Start(c)), s.tickets[i];
    assert ContextOk(s.ctxs[c]);
    assert StartedOk(s, i) && CalledBack(s, i) == CalledBack(s', i);
    if t.dependent == c {
      assert OutstandingSet(s, c) == {};
      assert i !in OutstandingSet(s, c);
      CalledBackMeansStarted(s, i);
    }
  }

  lemma StartKeeps(s: State, c: nat)
    requires Inv(s) && Enabled(s, Start(c))
    ensures Inv(Step(s, Start(c)))
  {
    var s' := Step(s, Start(c));
    assert ContextOk(s.ctxs[c]);
    StartLinked(s, c);
    SameCallbacks(s, s');
    forall i | 0 <= i < |s'.tickets| ensures StartedOk(s', i) {
      StartStarted(s, c, i);
    }
  }

  /** A context that has called back has started. */
  lemma CalledBackMeansStarted(s: State, i: nat)
    requires ContextsOk(s) && i < |s.tickets| && CalledBack(s, i)
    ensures 0 < s.ctxs[s.tickets[i].blocker].order <= s.starts
  {
    assert ContextOk(s.ctxs[s.tickets[i].blocker]);
  }

  // ---- DependsOn -----------------------------------------------------------

  /** The first half of DependsOn on an open root. */
  function WithTicket(s: State, c: nat, b: nat): State
    requires s.Has(c)
  {
    s.Put(c, s.ctxs[c].(wg := s.ctxs[c].wg + 1, adding := Some(|s.tickets|)))
     .(tickets := s.tickets + [Ticket(c, b, Adding)])
  }

  lemma WithTicketLinked(s: State, c: nat, b: nat)
    requires Linked(s) && s.Has(c) && s.Has(b) && s.ctxs[c].parent.None? && s.ctxs[b].parent.None?
    requires s.ctxs[c].adding.None?
    ensures Linked(WithTicket(s, c, b))
  {
    var s' := WithTicket(s, c, b);
    forall i | 0 <= i < |s'.tickets| ensures TicketOk(s', i) {
      if i < |s.tickets| {
        assert TicketOk(s, i);
      }
    }
    forall d, place | 0 <= d < |s'.ctxs| && 0 <= place < |s'.ctxs[d].accepted| ensures CallbackOk(s', d, place) {
      assert CallbackOk(s, d, place);
    }
    forall d | 0 <= d < |s'.ctxs| && s'.ctxs[d].adding.Some? ensures AddingOk(s', d) {
      if d != c {
        assert AddingOk(s, d);
      }
    }
  }

  lemma WithTicketCounted(s: State, c: nat, b: nat, d: nat)
    requires s.Has(c) && s.Has(d)
    ensures var n, s' := |s.tickets|, WithTicket(s, c, b);
            OutstandingSet(s', d) == if d == c then OutstandingSet(s, d) + {n} else OutstandingSet(s, d)
    ensures |s.tickets| !in OutstandingSet(s, d)
  {
    var s' := WithTicket(s, c, b);
    forall i | 0 <= i < |s.tickets| ensures Outstanding(s, d, i) == Outstanding(s', d, i) {
      assert CalledBack(s, i) == CalledBack(s', i);
    }
  }

  lemma WithTicketStarted(s: State, c: nat, b: nat)
    requires AllStartedOk(s) && s.Has(c) && s.Has(b) && s.ctxs[c].order == 0
    ensures AllStartedOk(WithTicket(s, c, b))
  {
    var s' := WithTicket(s, c, b);
    forall i | 0 <= i < |s'.tickets| ensures StartedOk(s', i) {
      if i < |s.tickets| {
        assert StartedOk(s, i) && CalledBack(s, i) == CalledBack(s', i);
      }
    }
  }

  lemma DependsOnKeeps(s: State, c: nat, b: nat)
    requires Inv(s) && s.Has(c) && s.Has(b) && s.ctxs[c].parent.None? && s.ctxs[b].parent.None?
    requires s.ctxs[c].phase.Open? && s.ctxs[c].adding.None?
    ensures Inv(WithTicket(s, c, b))
  {
    var s' := WithTicket(s, c, b);
    assert ContextOk(s.ctxs[c]);
    WithTicketLinked(s, c, b);
    WithTicketStarted(s, c, b);
    forall d | 0 <= d < |s'.ctxs| ensures s'.ctxs[d].wg == |OutstandingSet(s', d)| {
      WithTicketCounted(s, c, b, d);
    }
  }

  /** What the second half of DependsOn does to the contexts and the ticket. */
  lemma RegisterDependencyShape(s: State, c: nat)
    requires ContextsOk(s) && Linked(s) && Enabled(s, DependsOnRegister(c))
    ensures var s', i := RegisterDependency(s, c), s.ctxs[c].adding.value;
            var t := s.tickets[i];
            var b, y := t.blocker, s.ctxs[t.blocker];
            && t.dependent == c && t.status.Adding? && b != c && s.ctxs[c].phase.Open?
            && s'.ctxs == s.ctxs[b := RegisterAt(y, Callback(c, i))][c := s.ctxs[c].(adding := None)]
            && s'.tickets == s.tickets[i := t.(status := if y.Done() then Dropped else Registered(|y.accepted|))]
            && s'.starts == s.starts
  {
    assert AddingOk(s, c) && ContextOk(s.ctxs[c]);
  }

  lemma RegisterDependencyTickets(s: State, c: nat, k: nat)
    requires ContextsOk(s) && Linked(s) && Enabled(s, DependsOnRegister(c)) && k < |s.tickets|
    ensures TicketOk(RegisterDependency(s, c), k)
  {
    RegisterDependencyShape(s, c);
    assert TicketOk(s, k) && TicketOk(s, s.ctxs[c].adding.value);
  }

  lemma RegisterDependencyLinked(s: State, c: nat)
    requires ContextsOk(s) && Linked(s) && Enabled(s, DependsOnRegister(c))
    ensures Linked(RegisterDependency(s, c))
  {
    var s' := RegisterDependency(s, c);
    RegisterDependencyShape(s, c);
    forall k | 0 <= k < |s'.tickets| ensures TicketOk(s', k) {
      RegisterDependencyTickets(s, c, k);
    }
    forall d, place | 0 <= d < |s'.ctxs| && 0 <= place < |s'.ctxs[d].accepted| ensures CallbackOk(s', d, place) {
      if place < |s.ctxs[d].accepted| {
        assert CallbackOk(s, d, place);
      }
    }
    forall d | 0 <= d < |s'.ctxs| && s'.ctxs[d].adding.Some? ensures AddingOk(s', d) {
      assert AddingOk(s, d);
    }
  }

  /** The blocker has not called back yet. */
  lemma RegisterDependencyCallbacks(s: State, c: nat, k: nat)
    requires ContextsOk(s) && Linked(s) && Enabled(s, DependsOnRegister(c)) && k < |s.tickets|
    ensures var s' := RegisterDependency(s, c);
            && |s'.tickets| == |s.tickets| && s'.tickets[k].dependent == s.tickets[k].dependent
            && CalledBack(s', k) == CalledBack(s, k)
  {
    RegisterDependencyShape(s, c);
    assert ContextOk(s.ctxs[s.tickets[s.ctxs[c].adding.value].blocker]);
  }

  lemma RegisterDependencyKeeps(s: State, c: nat)
    requires Inv(s) && Enabled(s, DependsOnRegister(c))
    ensures Inv(RegisterDependency(s, c))
  {
    var s' := RegisterDependency(s, c);
    RegisterDependencyLinked(s, c);
    RegisterDependencyShape(s, c);
    assert ContextsOk(s') by {
      assert ContextOk(s.ctxs[c]) && ContextOk(s.ctxs[s.tickets[s.ctxs[c].adding.value].blocker]);
    }
    forall k | 0 <= k < |s'.tickets| ensures CalledBack(s', k) == CalledBack(s, k) && StartedOk(s', k) {
      RegisterDependencyCallbacks(s, c, k);
      assert StartedOk(s, k);
    }
    SameCallbacks(s, s');
  }

  // ---- running a finalizer -------------------------------------------------

  /** One more call has been made by c, and a callback's dependent has one less to wait for. */
  lemma RunOneShape(s: State, c: nat)
    requires Inv(s) && Enabled(s, RunNext(c))
    ensures var s' := RunOne(s, c); var x := s.ctxs[c]; var f := x.captured[x.next];
            && f == x.accepted[x.next] && |x.executed| == x.next
            && |s'.ctxs| == |s.ctxs| && s'.tickets == s.tickets && s'.starts == s.starts
            && s'.ctxs[c].executed == x.executed + [f] == x.accepted[..x.next + 1]
            && (forall d :: 0 <= d < |s.ctxs| && d != c ==> s'.ctxs[d].executed == s.ctxs[d].executed)
            && (forall d :: 0 <= d < |s.ctxs| ==>
                  && s'.ctxs[d].parent == s.ctxs[d].parent && s'.ctxs[d].phase == s.ctxs[d].phase
                  && s'.ctxs[d].accepted == s.ctxs[d].accepted && s'.ctxs[d].captured == s.ctxs[d].captured
                  && s'.ctxs[d].finalizeables == s.ctxs[d].finalizeables
                  && s'.ctxs[d].adding == s.ctxs[d].adding && s'.ctxs[d].order == s.ctxs[d].order
                  && s'.ctxs[d].next == (if d == c then x.next + 1 else s.ctxs[d].next)
                  && s'.ctxs[d].wg == s.ctxs[d].wg - (if f.Callback? && f.dependent == d then 1 else 0))
  {
    assert ContextOk(s.ctxs[c]);
  }

  lemma RunOneLocal(s: State, c: nat)
    requires Inv(s) && Enabled(s, RunNext(c))
    ensures ContextsOk(RunOne(s, c)) && Linked(RunOne(s, c)) && ParentsOlder(RunOne(s, c))
  {
    RunOneShape(s, c);
    var s' := RunOne(s, c);
    forall d | 0 <= d < |s'.ctxs| ensures ContextOk(s'.ctxs[d]) && s'.ctxs[d].order <= s'.starts {
      assert ContextOk(s.ctxs[d]);
    }
    forall i | 0 <= i < |s'.tickets| ensures TicketOk(s', i) {
      assert TicketOk(s, i);
    }
    forall d, place | 0 <= d < |s'.ctxs| && 0 <= place < |s'.ctxs[d].accepted| ensures CallbackOk(s', d, place) {
      assert CallbackOk(s, d, place);
    }
    forall d | 0 <= d < |s'.ctxs| && s'.ctxs[d].adding.Some? ensures AddingOk(s', d) {
      assert AddingOk(s, d);
    }
  }

  /** Exactly the ticket of the executed callback, if it is one, turns called back. */
  lemma RunOneCallsBack(s: State, c: nat, i: nat)
    requires Inv(s) && Enabled(s, RunNext(c)) && i < |s.tickets|
    ensures var f := s.ctxs[c].captured[s.ctxs[c].next]; var s' := RunOne(s, c);
            && i < |s'.tickets|
            && (f.Callback? && f.ticket == i ==> !CalledBack(s, i) && CalledBack(s', i) && s.tickets[i].dependent == f.dependent)
            && (!(f.Callback? && f.ticket == i) ==> CalledBack(s', i) == CalledBack(s, i))
  {
    RunOneShape(s, c);
    var x := s.ctxs[c];
    assert CallbackOk(s, c, x.next);
    assert TicketOk(s, i);
  }

  lemma RunOneKeeps(s: State, c: nat)
    requires Inv(s) && Enabled(s, RunNext(c))
    ensures Inv(RunOne(s, c))
  {
    RunOneLocal(s, c);
    RunOneShape(s, c);
    var s', x := RunOne(s, c), s.ctxs[c];
    var f := x.captured[x.next];
    forall i | 0 <= i < |s'.tickets| ensures StartedOk(s', i) {
      assert StartedOk(s, i);
      RunOneCallsBack(s, c, i);
    }
    forall d | 0 <= d < |s'.ctxs| ensures s'.ctxs[d].wg == |OutstandingSet(s', d)| {
      RunOneCount(s, c, d);
    }
  }

  lemma RunOneCount(s: State, c: nat, d: nat)
    requires Inv(s) && Enabled(s, RunNext(c)) && s.Has(d)
    ensures RunOne(s, c).ctxs[d].wg == |OutstandingSet(RunOne(s, c), d)|
  {
    RunOneShape(s, c);
    var s', x := RunOne(s, c), s.ctxs[c];
    var f := x.captured[x.next];
    forall i | 0 <= i < |s.tickets|
      ensures Outstanding(s', d, i) == (Outstanding(s, d, i) && !(f.Callback? && f.ticket == i))
    {
      RunOneCallsBack(s, c, i);
    }
    if f.Callback? && f.dependent == d {
      assert CallbackOk(s, c, x.next);
      RunOneCallsBack(s, c, f.ticket);
      assert f.ticket in OutstandingSet(s, d);
      assert OutstandingSet(s', d) == OutstandingSet(s, d) - {f.ticket};
    } else {
      assert OutstandingSet(s', d) == OutstandingSet(s, d) by {
        if f.Callback? {
          assert CallbackOk(s, c, x.next);
        }
      }
    }
  }

  // ---- every step, every run -----------------------------------------------

  lemma RootStep(s: State, c: nat, f: Fin, blocker: nat)
    requires s.Has(c) && s.Has(blocker) && ParentsOlder(s)
    ensures var r := Root(s, c); var x := s.ctxs[r];
            && Register(s, c, f) == s.Put(r, RegisterAt(x, f))
            && Close(s, c) == s.Put(r, MarkAt(x))
            && BeginDependsOn(s, c, blocker) ==
                 if x.Done() then s
                 else WithTicket(s, r, Root(s, blocker))
  {
    ChildActsAsRoot(s, c, f, blocker);
    RootHasNoParent(s, c);
  }

  lemma InvStep(s: State, a: Action)
    requires Inv(s) && Enabled(s, a)
    ensures Inv(Step(s, a))
  {
    match a
    case NewContext => NewContextKeeps(s, FRESH);
    case NewChild(c) => NewContextKeeps(s, FRESH.(parent := Some(c)));
    case RegisterFin(c, f) =>
      RootStep(s, c, f, c);
      RegisterKeeps(s, Root(s, c), f);
    case DependsOn(c, blocker) =>
      RootStep(s, c, Finalizer(0), blocker);
      if !s.ctxs[Root(s, c)].Done() {
        RootHasNoParent(s, c);
        RootHasNoParent(s, blocker);
        DependsOnKeeps(s, Root(s, c), Root(s, blocker));
      }
    case DependsOnRegister(c) => RegisterDependencyKeeps(s, c);
    case CloseMark(c) =>
      RootStep(s, c, Finalizer(0), c);
      var r := Root(s, c);
      assert ContextOk(s.ctxs[r]);
      QuietPut(s, r, MarkAt(s.ctxs[r]));
    case Capture(c) =>
      assert ContextOk(s.ctxs[c]);
      QuietPut(s, c, CaptureAt(s.ctxs[c]));
    case Start(c) => StartKeeps(s, c);
    case RunNext(c) => RunOneKeeps(s, c);
    case Finish(c) =>
      assert ContextOk(s.ctxs[c]);
      QuietPut(s, c, s.ctxs[c].(phase := Finished));
  }

  lemma {:induction false} InvRun(s: State, run: seq<Action>, s': State)
    requires Inv(s) && Leads(s, run, s')
    ensures Inv(s')
    decreases |run|
  {
    if run != [] {
      InvStep(s, run[0]);
      InvRun(Step(s, run[0]), run[1..], s');
    }
  }

  /** Every reachable state satisfies the invariant; in particular no wait group is ever
      negative, so wg.Done never panics. */
  lemma InvReachable(s: State)
    requires Reachable(s)
    ensures Inv(s) && forall c :: 0 <= c < |s.ctxs| ==> s.ctxs[c].wg >= 0
  {
    var run :| Leads(INITIAL, run, s);
    InvRun(INITIAL, run, s);
  }
}
