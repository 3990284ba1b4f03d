/**
 What a run of the context protocol did, told from its actions alone: who was made by whom,
 who was closed, what was registered, and who depended on whom.  In every reachable state
 the contexts hold exactly that.
 */
module ContextHistory {
  import opened Common
  import opened ContextProtocol
  import opened ContextTheorems

  // ---- the history of a run ------------------------------------------------

  /** The parents of the contexts, in the order in which they were made. */
  ghost function Parents(run: seq<Action>): seq<Option<nat>> {
    if run == [] then [] else ParentsAfter(Parents(run[..|run| - 1]), run[|run| - 1])
  }

  ghost function ParentsAfter(parents: seq<Option<nat>>, a: Action): seq<Option<nat>> {
    match a
    case NewContext => parents + [None]
    case NewChild(c) => parents + [Some(c)]
    case _ => parents
  }

  /** The context without a parent that c comes from. */
  ghost function Origin(parents: seq<Option<nat>>, c: nat): nat
    decreases c
  {
    if c < |parents| && parents[c].Some? && parents[c].value < c then Origin(parents, parents[c].value) else c
  }

  /** Close was called on r or on something that comes from it. */
  ghost predicate ClosedIn(run: seq<Action>, r: nat) {
    run != [] &&
    var before, a := run[..|run| - 1], run[|run| - 1];
    ClosedIn(before, r) || (a.CloseMark? && Origin(Parents(before), a.c) == r)
  }

  /** What was registered on r, or on something that comes from it, before that; in order. */
  ghost function Registrations(run: seq<Action>, r: nat): seq<Fin> {
    if run == [] then []
    else
      var before, a := run[..|run| - 1], run[|run| - 1];
      Registrations(before, r) +
      if a.RegisterFin? && Origin(Parents(before), a.c) == r && !ClosedIn(before, r) then [a.f] else []
  }

  /** The calls of DependsOn that found their context open: whose they were, and on whom. */
  ghost function Dependencies(run: seq<Action>): seq<(nat, nat)> {
    if run == [] then []
    else
      var before, a := run[..|run| - 1], run[|run| - 1];
      Dependencies(before) +
      if a.DependsOn? && !ClosedIn(before, Origin(Parents(before), a.c))
      then [(Origin(Parents(before), a.c), Origin(Parents(before), a.blocker))]
      else []
  }

  /** The users' finalizers and closers of a list, without the callbacks. */
  ghost function Users(fins: seq<Fin>): seq<Fin> {
    if fins == [] then []
    else Users(fins[..|fins| - 1]) + if fins[|fins| - 1].Callback? then [] else [fins[|fins| - 1]]
  }

  lemma UsersSnoc(fins: seq<Fin>, f: Fin)
    ensures Users(fins + [f]) == Users(fins) + if f.Callback? then [] else [f]
  {
    assert (fins + [f])[..|fins|] == fins;
  }

  // ---- the contexts hold it ------------------------------------------------

  ghost predicate ContextIs(run: seq<Action>, s: State, c: nat)
    requires s.Has(c)
  {
    && c < |Parents(run)| && s.ctxs[c].parent == Parents(run)[c]
    && s.ctxs[c].Done() == ClosedIn(run, c)
    && Users(s.ctxs[c].accepted) == Registrations(run, c)
  }

  ghost predicate TicketIs(run: seq<Action>, s: State, i: nat)
    requires i < |s.tickets|
  {
    i < |Dependencies(run)| && (s.tickets[i].dependent, s.tickets[i].blocker) == Dependencies(run)[i]
  }

  ghost predicate Tells(run: seq<Action>, s: State) {
    && |Parents(run)| == |s.ctxs| && (forall c :: 0 <= c < |s.ctxs| ==> ContextIs(run, s, c))
    && |Dependencies(run)| == |s.tickets| && (forall i :: 0 <= i < |s.tickets| ==> TicketIs(run, s, i))
    && (forall c :: c >= |s.ctxs| ==> !ClosedIn(run, c) && Registrations(run, c) == [])
  }

  lemma {:induction false} OriginIsRoot(run: seq<Action>, s: State, c: nat)
    requires Tells(run, s) && s.Has(c)
    ensures Origin(Parents(run), c) == Root(s, c)
    decreases c
  {
    assert ContextIs(run, s, c);
    if s.ctxs[c].parent.Some? && s.ctxs[c].parent.value < c {
      OriginIsRoot(run, s, s.ctxs[c].parent.value);
    }
  }

  /** What one more action does to the history. */
  lemma HistorySnoc(run: seq<Action>, a: Action)
    ensures var run' := run + [a]; var parents := Parents(run);
            && Parents(run') == ParentsAfter(parents, a)
            && (forall r: nat :: ClosedIn(run', r) == (ClosedIn(run, r) || (a.CloseMark? && Origin(parents, a.c) == r)))
            && (forall r: nat :: Registrations(run', r) == Registrations(run, r) +
                  if a.RegisterFin? && Origin(parents, a.c) == r && !ClosedIn(run, r) then [a.f] else [])
            && Dependencies(run') == Dependencies(run) +
                  if a.DependsOn? && !ClosedIn(run, Origin(parents, a.c)) then [(Origin(parents, a.c), Origin(parents, a.blocker))] else []
  {
    assert (run + [a])[..|run|] == run;
  }

  lemma TellsRegister(run: seq<Action>, s: State, c: nat, f: Fin)
    requires Tells(run, s) && Inv(s) && Enabled(s, RegisterFin(c, f))
    ensures Tells(run + [RegisterFin(c, f)], Register(s, c, f))
  {
    var a := RegisterFin(c, f);
    var run', s' := run + [a], Register(s, c, f);
    HistorySnoc(run, a);
    OriginIsRoot(run, s, c);
    RootStep(s, c, f, c);
    forall d | 0 <= d < |s'.ctxs| ensures ContextIs(run', s', d) {
      assert ContextIs(run, s, d);
      UsersSnoc(s.ctxs[d].accepted, f);
    }
    forall i | 0 <= i < |s'.tickets| ensures TicketIs(run', s', i) {
      assert TicketIs(run, s, i);
    }
  }

  lemma TellsDependsOn(run: seq<Action>, s: State, c: nat, b: nat)
    requires Tells(run, s) && Inv(s) && Enabled(s, DependsOn(c, b))
    ensures Tells(run + [DependsOn(c, b)], BeginDependsOn(s, c, b))
  {
    var a := DependsOn(c, b);
    var run', s' := run + [a], BeginDependsOn(s, c, b);
    HistorySnoc(run, a);
    OriginIsRoot(run, s, c);
    OriginIsRoot(run, s, b);
    RootStep(s, c, Finalizer(0), b);
    assert ContextIs(run, s, Root(s, c));
    forall d | 0 <= d < |s'.ctxs| ensures ContextIs(run', s', d) {
      assert ContextIs(run, s, d);
    }
    forall i | 0 <= i < |s'.tickets| ensures TicketIs(run', s', i) {
      assert i < |s.tickets| ==> TicketIs(run, s, i);
    }
  }

  lemma TellsDependsOnRegister(run: seq<Action>, s: State, c: nat)
    requires Tells(run, s) && Inv(s) && Enabled(s, DependsOnRegister(c))
    ensures Tells(run + [DependsOnRegister(c)], RegisterDependency(s, c))
  {
    var a := DependsOnRegister(c);
    var run', s' := run + [a], RegisterDependency(s, c);
    HistorySnoc(run, a);
    RegisterDependencyShape(s, c);
    forall d | 0 <= d < |s'.ctxs| ensures ContextIs(run', s', d) {
      assert ContextIs(run, s, d);
      UsersSnoc(s.ctxs[d].accepted, Callback(c, s.ctxs[c].adding.value));
    }
    forall i | 0 <= i < |s'.tickets| ensures TicketIs(run', s', i) {
      assert TicketIs(run, s, i);
    }
  }

  lemma TellsClose(run: seq<Action>, s: State, c: nat)
    requires Tells(run, s) && Inv(s) && Enabled(s, CloseMark(c))
    ensures Tells(run + [CloseMark(c)], Close(s, c))
  {
    var a := CloseMark(c);
    var run', s' := run + [a], Close(s, c);
    HistorySnoc(run, a);
    OriginIsRoot(run, s, c);
    RootStep(s, c, Finalizer(0), c);
    forall d | 0 <= d < |s'.ctxs| ensures ContextIs(run', s', d) {
      assert ContextIs(run, s, d);
    }
    forall i | 0 <= i < |s'.tickets| ensures TicketIs(run', s', i) {
      assert TicketIs(run, s, i);
    }
  }

  lemma TellsNew(run: seq<Action>, s: State, a: Action)
    requires Tells(run, s) && Enabled(s, a) && (a.NewContext? || a.NewChild?)
    ensures Tells(run + [a], Step(s, a))
  {
    var run', s' := run + [a], Step(s, a);
    HistorySnoc(run, a);
    forall d | 0 <= d < |s'.ctxs| ensures ContextIs(run', s', d) {
      assert d < |s.ctxs| ==> ContextIs(run, s, d);
    }
    forall i | 0 <= i < |s'.tickets| ensures TicketIs(run', s', i) {
      assert TicketIs(run, s, i);
    }
  }

  /** A step that closes and registers nothing. */
  lemma TellsQuiet(run: seq<Action>, s: State, a: Action, s': State)
    requires Tells(run, s) && (a.Capture? || a.Start? || a.RunNext? || a.Finish?)
    requires |s'.ctxs| == |s.ctxs| && s'.tickets == s.tickets
    requires forall d :: 0 <= d < |s.ctxs| ==>
               s'.ctxs[d].parent == s.ctxs[d].parent && s'.ctxs[d].Done() == s.ctxs[d].Done() && s'.ctxs[d].accepted == s.ctxs[d].accepted
    ensures Tells(run + [a], s')
  {
    HistorySnoc(run, a);
    forall d | 0 <= d < |s'.ctxs| ensures ContextIs(run + [a], s', d) {
      assert ContextIs(run, s, d);
    }
    forall i | 0 <= i < |s'.tickets| ensures TicketIs(run + [a], s', i) {
      assert TicketIs(run, s, i);
    }
  }

  lemma TellsStep(run: seq<Action>, s: State, a: Action)
    requires Tells(run, s) && Inv(s) && Enabled(s, a)
    ensures Tells(run + [a], Step(s, a))
  {
    match a
    case NewContext => TellsNew(run, s, a);
    case NewChild(_) => TellsNew(run, s, a);
    case RegisterFin(c, f) => TellsRegister(run, s, c, f);
    case DependsOn(c, b) => TellsDependsOn(run, s, c, b);
    case DependsOnRegister(c) => TellsDependsOnRegister(run, s, c);
    case CloseMark(c) => TellsClose(run, s, c);
    case RunNext(c) =>
      RunOneShape(s, c);
      TellsQuiet(run, s, a, Step(s, a));
    case _ => TellsQuiet(run, s, a, Step(s, a));
  }

  /** In every run the contexts have the parents they were made with, exactly those are closed
      that Close was called on, they have accepted exactly the users' finalizers and closers
      that were registered before that, in order, and there is one dependency for every
      DependsOn that found its context open, on the right contexts. */
  lemma {:induction false} HistoryIsTold(run: seq<Action>, s: State)
    requires Leads(INITIAL, run, s)
    ensures Tells(run, s)
  {
    if run != [] {
      var before, a := run[..|run| - 1], run[|run| - 1];
      var s0 := LeadsFront(INITIAL, run, s);
      HistoryIsTold(before, s0);
      InvRun(INITIAL, before, s0);
      TellsStep(before, s0, a);
      assert run == before + [a];
    }
  }

  lemma {:induction false} LeadsFront(s: State, run: seq<Action>, s': State) returns (s1: State)
    requires Leads(s, run, s') && run != []
    ensures Leads(s, run[..|run| - 1], s1) && Enabled(s1, run[|run| - 1]) && s' == Step(s1, run[|run| - 1])
    decreases |run|
  {
    if |run| == 1 {
      s1 := s;
    } else {
      s1 := LeadsFront(Step(s, run[0]), run[1..], s');
      assert run[1..][..|run| - 2] == run[..|run| - 1][1..];
    }
  }

  // ---- what follows --------------------------------------------------------

  lemma {:induction false} UsersCount(fins: seq<Fin>, f: Fin)
    requires !f.Callback?
    ensures multiset(Users(fins))[f] == multiset(fins)[f]
  {
    if fins != [] {
      var front, last := fins[..|fins| - 1], fins[|fins| - 1];
      UsersCount(front, f);
      assert fins == front + [last];
    }
  }

  /** So a root accepts a finalizer or closer as often as it was registered while the root was
      open, and has run it exactly that often when it is finished. */
  lemma AcceptedAsRegistered(run: seq<Action>, s: State, r: nat, f: Fin)
    requires Leads(INITIAL, run, s) && s.Has(r) && !f.Callback?
    ensures multiset(s.ctxs[r].accepted)[f] == multiset(Registrations(run, r))[f]
    ensures s.ctxs[r].phase.Finished? ==> Users(s.ctxs[r].executed) == Registrations(run, r)
    ensures s.ctxs[r].phase.Finished? ==> multiset(s.ctxs[r].executed)[f] == multiset(Registrations(run, r))[f]
  {
    HistoryIsTold(run, s);
    assert ContextIs(run, s, r);
    UsersCount(s.ctxs[r].accepted, f);
    ExecutedInOrder(s, r);
  }
}
