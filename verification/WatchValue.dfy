/**
 A value that is watched, unwatched and watched again (watch/value.go), as interleaved
 steps.  Every Watch makes a new updatable and starts a goroutine for it; the goroutine of
 an earlier Watch may still be about to handle a notification.

 Watch holds the lock while it waits for the first notification, so its two halves are two
 steps.  What the updatable, the functions given by the user and other owners of the
 channel do is a parameter of the step.
 */
module WatchValue {
  import opened Common

  /** How one update went; the process function runs in the last case only. */
  datatype Outcome = Timeout | GetFailed | NilValue | Processed

  datatype Updatable = Updatable(
    token: bool,
    chanClosed: bool,
    closes: nat)  // how often the value has closed it

  datatype Stage = Receiving | Handling | Exited

  datatype Routine = Routine(u: nat, stage: Stage)

  datatype Event =
    | Watched(u: nat)
    | Unwatched(u: nat)
    | ProcessedFirst(u: nat)            // by Watch itself
    | ProcessedUpdate(u: nat, r: nat)   // by the update loop of goroutine r, started for u

  datatype State = State(
    watching: bool,
    updatable: Option<nat>,
    initializing: bool,   // Watch holds the lock
    updatables: seq<Updatable>,
    routines: seq<Routine>,
    log: seq<Event>)

  const INITIAL: State := State(false, None, false, [], [], [])

  datatype Action =
    | WatchBegin(created: bool)
    | WatchFirst(outcome: Outcome)
    | Unwatch
    | Notify(u: nat)            // the updatable sends a notification
    | CloseChannel(u: nat)      // the updatable's source is closed
    | Receive(r: nat)
    | LoopEnds(r: nat)
    | Handle(r: nat, outcome: Outcome)

  predicate Enabled(s: State, a: Action) {
    match a
    case WatchBegin(_) => !s.initializing
    case WatchFirst(outcome) =>
      && s.initializing && s.updatable.Some? && s.updatable.value < |s.updatables|
      && (outcome.Timeout? || s.updatables[s.updatable.value].token || s.updatables[s.updatable.value].chanClosed)
    case Unwatch => !s.initializing && (s.updatable.Some? ==> s.updatable.value < |s.updatables|)
    case Notify(u) => u < |s.updatables| && !s.updatables[u].chanClosed
    case CloseChannel(u) => u < |s.updatables|
    case Receive(r) =>
      r < |s.routines| && s.routines[r].stage.Receiving? && s.routines[r].u < |s.updatables| && s.updatables[s.routines[r].u].token
    case LoopEnds(r) =>
      && r < |s.routines| && s.routines[r].stage.Receiving? && s.routines[r].u < |s.updatables|
      && !s.updatables[s.routines[r].u].token && s.updatables[s.routines[r].u].chanClosed
    case Handle(r, outcome) =>
      !s.initializing && r < |s.routines| && s.routines[r].stage.Handling? && !outcome.Timeout?
  }

  function Step(s: State, a: Action): State
    requires Enabled(s, a)
  {
    match a
    case WatchBegin(created) =>
      if s.watching || !created then s
      else
        var u := |s.updatables|;
        s.(watching := true, updatable := Some(u), initializing := true,
           updatables := s.updatables + [Updatable(false, false, 0)], log := s.log + [Watched(u)])
    case WatchFirst(outcome) =>
      var u := s.updatable.value;
      s.(initializing := false,
         updatables := if outcome.Timeout? then s.updatables else s.updatables[u := s.updatables[u].(token := false)],
         routines := s.routines + [Routine(u, Receiving)],
         log := if outcome.Processed? then s.log + [ProcessedFirst(u)] else s.log)
    case Unwatch =>
      if !s.watching || s.updatable.None? then s
      else
        var u := s.updatable.value;
        var x := s.updatables[u];
        s.(watching := false, updatable := None,
           updatables := s.updatables[u := x.(chanClosed := true, closes := x.closes + 1)],
           log := s.log + [Unwatched(u)])
    case Notify(u) => s.(updatables := s.updatables[u := s.updatables[u].(token := true)])
    case CloseChannel(u) => s.(updatables := s.updatables[u := s.updatables[u].(chanClosed := true)])
    case Receive(r) =>
      var u := s.routines[r].u;
      s.(updatables := s.updatables[u := s.updatables[u].(token := false)],
         routines := s.routines[r := s.routines[r].(stage := Handling)])
    case LoopEnds(r) => s.(routines := s.routines[r := s.routines[r].(stage := Exited)])
    case Handle(r, outcome) =>
      var u := s.routines[r].u;
      if !s.watching || s.updatable != Some(u) then
        s.(routines := s.routines[r := s.routines[r].(stage := Exited)])
      else
        s.(routines := s.routines[r := s.routines[r].(stage := Receiving)],
           log := if outcome.Processed? then s.log + [ProcessedUpdate(u, r)] else s.log)
  }

  ghost predicate Leads(s: State, run: seq<Action>, s': State)
    decreases |run|
  {
    if run == [] then s' == s
    else Enabled(s, run[0]) && Leads(Step(s, run[0]), run[1..], s')
  }

  ghost predicate Reachable(s: State) {
    exists run :: Leads(INITIAL, run, s)
  }

  // ---- reading the log -----------------------------------------------------

  /** The updatable that the calls of Watch and Unwatch so far leave watched. */
  ghost function Current(log: seq<Event>): Option<nat> {
    if log == [] then None
    else
      match log[|log| - 1]
      case Watched(u) => Some(u)
      case Unwatched(_) => None
      case _ => Current(log[..|log| - 1])
  }

  /** Updates are processed for the watched updatable only; the loop's goroutine is the
      one started for it. */
  ghost predicate Faithful(log: seq<Event>, routines: seq<Routine>) {
    forall i :: 0 <= i < |log| ==> EventOk(log[..i], log[i], routines)
  }

  ghost predicate EventOk(before: seq<Event>, e: Event, routines: seq<Routine>) {
    match e
    case Watched(u) => Current(before) == None && Watched(u) !in before
    case Unwatched(u) => Current(before) == Some(u)
    case ProcessedFirst(u) => Current(before) == Some(u)
    case ProcessedUpdate(u, r) => Current(before) == Some(u) && r < |routines| && routines[r].u == u
  }

  // ---- the invariant -------------------------------------------------------

  ghost predicate RoutineOk(s: State, r: nat)
    requires r < |s.routines|
  {
    && s.routines[r].u < |s.updatables|
    && (forall r' :: 0 <= r' < |s.routines| && s.routines[r'].u == s.routines[r].u ==> r' == r)
    && (s.initializing ==> s.updatable != Some(s.routines[r].u))
  }

  /** The watched updatable has its goroutine, which ends only with the channel. */
  ghost predicate Attended(s: State) {
    s.watching && !s.initializing && s.updatable.Some? && s.updatable.value < |s.updatables| ==>
      exists r :: 0 <= r < |s.routines| && s.routines[r].u == s.updatable.value
               && (s.routines[r].stage.Exited? ==> s.updatables[s.updatable.value].chanClosed)
  }

  ghost predicate Inv(s: State) {
    && s.watching == s.updatable.Some?
    && (s.initializing ==> s.watching)
    && (s.watching ==> s.updatable.value < |s.updatables| && s.updatables[s.updatable.value].closes == 0)
    && (forall u :: 0 <= u < |s.updatables| ==> s.updatables[u].closes <= 1)
    && (forall u :: 0 <= u < |s.updatables| && s.updatable != Some(u) ==> s.updatables[u].chanClosed)
    && (forall r :: 0 <= r < |s.routines| ==> RoutineOk(s, r))
    && Attended(s)
    && Current(s.log) == s.updatable
    && (forall e :: e in s.log && e.Watched? ==> e.u < |s.updatables|)
    && Faithful(s.log, s.routines)
  }

  /** An event that is in order where it is added keeps the log in order. */
  lemma LogGrows(log: seq<Event>, e: Event, routines: seq<Routine>, routines': seq<Routine>)
    requires Faithful(log, routines) && SameRoutines(routines, routines') && EventOk(log, e, routines')
    ensures Faithful(log + [e], routines')
    ensures Current(log + [e]) == match e case Watched(u) => Some(u) case Unwatched(_) => None case _ => Current(log)
  {
    var log' := log + [e];
    assert log'[..|log'| - 1] == log;
    forall i | 0 <= i < |log'| ensures EventOk(log'[..i], log'[i], routines') {
      if i < |log| {
        assert log'[..i] == log[..i];
        assert EventOk(log[..i], log[i], routines);
      } else {
        assert log'[..i] == log;
      }
    }
  }

  /** Goroutines are added, and each stays with its updatable. */
  ghost predicate SameRoutines(routines: seq<Routine>, routines': seq<Routine>) {
    && |routines| <= |routines'|
    && forall r :: 0 <= r < |routines| ==> routines'[r].u == routines[r].u
  }

  lemma LogStays(log: seq<Event>, routines: seq<Routine>, routines': seq<Routine>)
    requires Faithful(log, routines) && SameRoutines(routines, routines')
    ensures Faithful(log, routines')
  {
    forall i | 0 <= i < |log| ensures EventOk(log[..i], log[i], routines') {
      assert EventOk(log[..i], log[i], routines);
    }
  }

  lemma WatchBeginKeeps(s: State)
    requires Inv(s) && !s.initializing && !s.watching
    ensures Inv(Step(s, WatchBegin(true)))
  {
    var s' := Step(s, WatchBegin(true));
    LogGrows(s.log, Watched(|s.updatables|), s.routines, s.routines);
    forall r | 0 <= r < |s'.routines| ensures RoutineOk(s', r) {
      assert RoutineOk(s, r);
    }
  }

  lemma WatchFirstKeeps(s: State, outcome: Outcome)
    requires Inv(s) && Enabled(s, WatchFirst(outcome))
    ensures Inv(Step(s, WatchFirst(outcome)))
  {
    var s', u := Step(s, WatchFirst(outcome)), s.updatable.value;
    if outcome.Processed? {
      LogGrows(s.log, ProcessedFirst(u), s.routines, s'.routines);
    } else {
      LogStays(s.log, s.routines, s'.routines);
    }
    forall r | 0 <= r < |s'.routines| ensures RoutineOk(s', r) {
      forall q | 0 <= q < |s.routines| ensures s.routines[q].u < |s.updatables| && s.routines[q].u != u {
        assert RoutineOk(s, q);
      }
      assert r < |s.routines| ==> RoutineOk(s, r);
    }
    assert s'.routines[|s.routines|] == Routine(u, Receiving);
  }

  lemma UnwatchKeeps(s: State)
    requires Inv(s) && Enabled(s, Unwatch) && s.watching
    ensures Inv(Step(s, Unwatch))
  {
    var s' := Step(s, Unwatch);
    LogGrows(s.log, Unwatched(s.updatable.value), s.routines, s.routines);
    forall r | 0 <= r < |s'.routines| ensures RoutineOk(s', r) {
      assert RoutineOk(s, r);
    }
  }

  predicate IsRoutineStep(a: Action) {
    a.Notify? || a.CloseChannel? || a.Receive? || a.LoopEnds? || a.Handle?
  }

  /** A step of one goroutine, or of the channel of one updatable, leaves the rest alone. */
  lemma RoutineStepFrame(s: State, a: Action)
    requires Inv(s) && Enabled(s, a) && IsRoutineStep(a)
    ensures var s' := Step(s, a);
            && s'.watching == s.watching && s'.updatable == s.updatable && s'.initializing == s.initializing
            && |s'.updatables| == |s.updatables| && |s'.routines| == |s.routines|
            && (forall u :: 0 <= u < |s.updatables| ==>
                  s'.updatables[u].closes == s.updatables[u].closes && (s.updatables[u].chanClosed ==> s'.updatables[u].chanClosed))
            && SameRoutines(s.routines, s'.routines)
            && (s'.log == s.log ||
                (a.Handle? && s.updatable == Some(s.routines[a.r].u) && s'.log == s.log + [ProcessedUpdate(s.routines[a.r].u, a.r)]))
  {
  }

  lemma StaysAttended(s: State, a: Action)
    requires Inv(s) && Enabled(s, a) && IsRoutineStep(a)
    ensures Attended(Step(s, a))
  {
    var s' := Step(s, a);
    if s.watching && !s.initializing {
      var u := s.updatable.value;
      var r :| 0 <= r < |s.routines| && s.routines[r].u == u
             && (s.routines[r].stage.Exited? ==> s.updatables[u].chanClosed);
      assert s.updatables[u].chanClosed ==> s'.updatables[u].chanClosed;
      assert s'.routines[r].u == u && (s'.routines[r].stage.Exited? ==> s'.updatables[u].chanClosed);
    }
  }

  lemma RoutineStepKeeps(s: State, a: Action)
    requires Inv(s) && Enabled(s, a) && IsRoutineStep(a)
    ensures Inv(Step(s, a))
  {
    RoutineStepFrame(s, a);
    StaysAttended(s, a);
    RoutineFrameKeeps(s, Step(s, a), a);
  }

  lemma RoutineFrameKeeps(s: State, s': State, a: Action)
    requires Inv(s) && Attended(s')
    requires s'.watching == s.watching && s'.updatable == s.updatable && s'.initializing == s.initializing
    requires |s'.updatables| == |s.updatables| && |s'.routines| == |s.routines|
    requires forall u :: 0 <= u < |s.updatables| ==>
               s'.updatables[u].closes == s.updatables[u].closes && (s.updatables[u].chanClosed ==> s'.updatables[u].chanClosed)
    requires SameRoutines(s.routines, s'.routines)
    requires s'.log == s.log ||
             (a.Handle? && a.r < |s.routines| && s.updatable == Some(s.routines[a.r].u)
              && s'.log == s.log + [ProcessedUpdate(s.routines[a.r].u, a.r)])
    ensures Inv(s')
  {
    forall r | 0 <= r < |s'.routines| ensures RoutineOk(s', r) {
      assert RoutineOk(s, r);
    }
    if s'.log != s.log {
      LogGrows(s.log, ProcessedUpdate(s.routines[a.r].u, a.r), s.routines, s'.routines);
    } else {
      LogStays(s.log, s.routines, s'.routines);
    }
  }

  lemma InvStep(s: State, a: Action)
    requires Inv(s) && Enabled(s, a)
    ensures Inv(Step(s, a))
  {
    match a
    case WatchBegin(created) =>
      if created && !s.watching {
        WatchBeginKeeps(s);
      }
    case WatchFirst(outcome) => WatchFirstKeeps(s, outcome);
    case Unwatch =>
      if s.watching {
        UnwatchKeeps(s);
      }
    case _ => RoutineStepKeeps(s, a);
  }

  lemma {:induction false} InvRun(s: State, run: seq<Action>, s': State)
    requires Inv(s) && Leads(s, run, s')
    ensures Inv(s')
    decreases |run|
  {
    if run != [] {
      InvStep(s, run[0]);
      InvRun(Step(s, run[0]), run[1..], s');
    }
  }

  lemma InvReachable(s: State)
    requires Reachable(s)
    ensures Inv(s)
  {
    var run :| Leads(INITIAL, run, s);
    InvRun(INITIAL, run, s);
  }

  // ---- what follows --------------------------------------------------------

  /** In every run the log is in order: each process call belongs to the updatable that is
      being watched at that moment, a call from an update loop comes from the goroutine of
      that updatable, which is the only one it has, and the value closes an updatable at
      most once. */
  lemma StaleWatchersNeverAct(s: State)
    requires Reachable(s)
    ensures Faithful(s.log, s.routines)
    ensures forall r, r' :: 0 <= r < |s.routines| && 0 <= r' < |s.routines| && s.routines[r].u == s.routines[r'].u ==> r == r'
    ensures forall u :: 0 <= u < |s.updatables| ==> s.updatables[u].closes <= 1
    ensures Attended(s)
  {
    InvReachable(s);
    forall r, r' | 0 <= r < |s.routines| && 0 <= r' < |s.routines| && s.routines[r].u == s.routines[r'].u
      ensures r == r'
    {
      assert RoutineOk(s, r);
    }
  }

  predicate IsProcess(e: Event) {
    e.ProcessedFirst? || e.ProcessedUpdate?
  }

  /** Nothing is processed between an Unwatch and the next Watch. */
  lemma {:induction false} NothingBetweenUnwatchAndWatch(s: State, i: nat, j: nat)
    requires Reachable(s) && i < j < |s.log|
    requires s.log[i].Unwatched?
    requires forall k :: i < k < j ==> !s.log[k].Watched?
    ensures !IsProcess(s.log[j])
  {
    InvReachable(s);
    StaysUnwatched(s.log, i, j);
    assert EventOk(s.log[..j], s.log[j], s.routines);
  }

  lemma {:induction false} StaysUnwatched(log: seq<Event>, i: nat, j: nat)
    requires i < j <= |log| && log[i].Unwatched?
    requires forall k :: i < k < j ==> !log[k].Watched?
    ensures Current(log[..j]) == None
    decreases j
  {
    assert log[..j][..j - 1] == log[..j - 1] && log[..j][j - 1] == log[j - 1];
    if i < j - 1 {
      StaysUnwatched(log, i, j - 1);
    }
  }

  // ---- every notification is handled, and every goroutine ends -------------

  /** While Watch holds the lock to wait for the first notification, nobody watches, unwatches
      or handles anything; only channels are sent on, closed and received from. */
  lemma LockExcludes(s: State, a: Action)
    requires Enabled(s, a) && s.initializing
    ensures a.WatchFirst? || a.Notify? || a.CloseChannel? || a.Receive? || a.LoopEnds?
  {
  }

  /** How often goroutine r has received, and handled what it received. */
  ghost function Receives(run: seq<Action>, r: nat): nat {
    if run == [] then 0 else Receives(run[..|run| - 1], r) + if run[|run| - 1] == Receive(r) then 1 else 0
  }

  ghost function Handles(run: seq<Action>, r: nat): nat {
    if run == [] then 0
    else
      var a := run[|run| - 1];
      Handles(run[..|run| - 1], r) + if a.Handle? && a.r == r then 1 else 0
  }

  lemma {:induction false} LeadsFront(s: State, run: seq<Action>, s': State) returns (s1: State)
    requires Leads(s, run, s') && run != []
    ensures Leads(s, run[..|run| - 1], s1) && Enabled(s1, run[|run| - 1]) && s' == Step(s1, run[|run| - 1])
    decreases |run|
  {
    if |run| == 1 {
      s1 := s;
    } else {
      s1 := LeadsFront(Step(s, run[0]), run[1..], s');
      assert run[1..][..|run| - 2] == run[..|run| - 1][1..];
    }
  }

  /** In every run a goroutine has handled what it received, each once, except for the one it
      may be at. */
  lemma {:induction false} ReceivedIsHandled(run: seq<Action>, s: State, r: nat)
    requires Leads(INITIAL, run, s)
    ensures Receives(run, r) == Handles(run, r) + if r < |s.routines| && s.routines[r].stage.Handling? then 1 else 0
  {
    if run != [] {
      var s0 := LeadsFront(INITIAL, run, s);
      ReceivedIsHandled(run[..|run| - 1], s0, r);
    }
  }

  /** A notification to the watched updatable reaches its goroutine, is processed there if
      there is something to process, and is used up; the goroutine waits for the next one. */
  lemma NotificationIsHandled(s: State, u: nat, r: nat, outcome: Outcome)
    requires Inv(s) && !s.initializing && s.updatable == Some(u) && !s.updatables[u].chanClosed
    requires r < |s.routines| && s.routines[r] == Routine(u, Receiving) && !outcome.Timeout?
    ensures Enabled(s, Notify(u))
    ensures var s1 := Step(s, Notify(u));
            Enabled(s1, Receive(r)) &&
            var s2 := Step(s1, Receive(r));
            Enabled(s2, Handle(r, outcome)) &&
            var s3 := Step(s2, Handle(r, outcome));
            && s3.log == s.log + (if outcome.Processed? then [ProcessedUpdate(u, r)] else [])
            && |s3.routines| == |s.routines| && s3.routines[r] == Routine(u, Receiving)
            && |s3.updatables| == |s.updatables| && !s3.updatables[u].token && !Enabled(s3, Receive(r))
  {
  }

  /** When the source of an updatable closes its channel, nothing more is sent on it, and its
      goroutine ends as soon as the channel is empty. */
  lemma ClosedChannelEnds(s: State, u: nat, r: nat)
    requires Enabled(s, CloseChannel(u)) && r < |s.routines| && s.routines[r] == Routine(u, Receiving) && !s.updatables[u].token
    ensures var s1 := Step(s, CloseChannel(u));
            && !Enabled(s1, Notify(u)) && !Enabled(s1, Receive(r)) && Enabled(s1, LoopEnds(r))
            && |Step(s1, LoopEnds(r)).routines| == |s.routines| && Step(s1, LoopEnds(r)).routines[r].stage.Exited?
  {
  }

  /** A notification that is still in the channel when it is closed is received before the
      goroutine ends. */
  lemma LastNotificationIsReceived(s: State, r: nat)
    requires Reachable(s) && r < |s.routines| && s.routines[r].stage.Receiving?
    requires s.routines[r].u < |s.updatables| && s.updatables[s.routines[r].u].token
    ensures Enabled(s, Receive(r)) && !Enabled(s, LoopEnds(r))
  {
  }

  /** A goroutine whose updatable is not watched any more ends with at most two steps of its
      own: it has something left to receive and gives up when it handles it, or its channel,
      which Unwatch has closed, is empty. */
  lemma StaleGoroutineEnds(s: State, r: nat, outcome: Outcome) returns (run: seq<Action>, s': State)
    requires Reachable(s) && !s.initializing && r < |s.routines| && s.updatable != Some(s.routines[r].u)
    requires !outcome.Timeout?
    ensures Leads(s, run, s') && |run| <= 2 && (forall i :: 0 <= i < |run| ==> run[i] in {Receive(r), LoopEnds(r), Handle(r, outcome)})
    ensures |s'.routines| == |s.routines| && s'.routines[r].stage.Exited? && s'.log == s.log
  {
    InvReachable(s);
    assert RoutineOk(s, r);
    match s.routines[r].stage
    case Exited => run, s' := [], s;
    case Handling => run, s' := [Handle(r, outcome)], Step(s, Handle(r, outcome));
    case Receiving =>
      if s.updatables[s.routines[r].u].token {
        var s1 := Step(s, Receive(r));
        run, s' := [Receive(r), Handle(r, outcome)], Step(s1, Handle(r, outcome));
        assert run[1..] == [Handle(r, outcome)] && run[1..][1..] == [];
      } else {
        run, s' := [LoopEnds(r)], Step(s, LoopEnds(r));
      }
  }
}
