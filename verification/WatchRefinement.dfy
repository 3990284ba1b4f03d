/**
 Every call of `WatchObject` is a run of steps of `WatchProtocol` or `WatchValue`: objects
 that agree with a state still agree with it after both have moved.
 */
module WatchRefinement {
  import opened Common
  import P = WatchProtocol
  import V = WatchValue
  import opened WatchObject

  // ---- the loops of the watchable, as runs ---------------------------------

  /** What Update leaves behind, from the n-th active channel on. */
  ghost function Sent(s: P.State, n: nat): P.State
    requires n <= |s.active|
  {
    s.(watches := seq(|s.watches|, k requires 0 <= k < |s.watches| =>
                        if k in s.active[n..] then s.watches[k].(token := true) else s.watches[k]),
       lock := P.Free)
  }

  lemma SentNext(s: P.State, n: nat)
    requires P.Enabled(s, P.UpdateSend) && s.lock == P.Updating(n) && P.Inv(s)
    ensures var s1 := P.Step(s, P.UpdateSend);
            s1.active == s.active && s1.lock == P.Updating(n + 1) && Sent(s1, n + 1) == Sent(s, n)
  {
    var k, s1 := s.active[n], P.Step(s, P.UpdateSend);
    assert P.WatchOk(s, k);
    assert s.active[n..] == [k] + s.active[n + 1..];
    assert s1.watches == s.watches[k := s.watches[k].(token := true)];
    assert Sent(s1, n + 1).watches == Sent(s, n).watches;
  }

  lemma {:induction false} SendAll(s: P.State, n: nat) returns (run: seq<P.Action>)
    requires P.Inv(s) && !s.panicked && s.lock == P.Updating(n)
    ensures n <= |s.active| && P.Leads(s, run, Sent(s, n))
    decreases |s.active| - n
  {
    if n == |s.active| {
      assert Sent(s, n).watches == s.watches;
      P.Prepended(s, P.UpdateEnd, s.(lock := P.Free), [], Sent(s, n));
      run := [P.UpdateEnd] + [];
    } else {
      var s1 := P.Step(s, P.UpdateSend);
      P.UpdateSendKeeps(s);
      SentNext(s, n);
      run := SendAll(s1, n + 1);
      P.Prepended(s, P.UpdateSend, s1, run, Sent(s, n));
      run := [P.UpdateSend] + run;
    }
  }

  ghost function ClosedBy(x: P.Watch): P.Watch {
    x.(chanClosed := true, closes := x.closes + 1, selfClosed := false)
  }

  /** What Close leaves behind, from the n-th active channel on. */
  ghost function ClosedFrom(s: P.State, n: nat): P.State
    requires n <= |s.active|
  {
    s.(watches := seq(|s.watches|, k requires 0 <= k < |s.watches| =>
                        if k in s.active[n..] then ClosedBy(s.watches[k]) else s.watches[k]),
       active := [],
       lock := P.Free)
  }

  lemma ClosedNext(s: P.State, n: nat)
    requires P.Enabled(s, P.CloseNext) && s.lock == P.ClosingAll(n) && P.Inv(s)
    ensures var s1 := P.Step(s, P.CloseNext);
            s1.active == s.active && s1.lock == P.ClosingAll(n + 1) && ClosedFrom(s1, n + 1) == ClosedFrom(s, n)
  {
    var k, s1 := s.active[n], P.Step(s, P.CloseNext);
    NextIsOpen(s, n);
    assert s1 == s.Put(k, ClosedBy(s.watches[k])).(lock := P.ClosingAll(n + 1));
    ClosedAfterPut(s, n, s1);
  }

  lemma NextIsOpen(s: P.State, n: nat)
    requires P.Inv(s) && P.Enabled(s, P.CloseNext) && s.lock == P.ClosingAll(n)
    ensures var k := s.active[n]; k !in s.active[n + 1..] && !s.watches[k].chanClosed
  {
    var k := s.active[n];
    assert P.WatchOk(s, k);
    assert P.Unclosed(s) == s.active[n..] && s.active[n..][0] == k;
  }

  lemma ClosedAfterPut(s: P.State, n: nat, s1: P.State)
    requires n < |s.active| && s.Has(s.active[n]) && s.active[n] !in s.active[n + 1..]
    requires s1 == s.Put(s.active[n], ClosedBy(s.watches[s.active[n]])).(lock := P.ClosingAll(n + 1))
    ensures ClosedFrom(s1, n + 1) == ClosedFrom(s, n)
  {
    var k := s.active[n];
    assert s.active[n..] == [k] + s.active[n + 1..];
    forall j | 0 <= j < |s.watches| ensures ClosedFrom(s1, n + 1).watches[j] == ClosedFrom(s, n).watches[j] {
      assert j in s.active[n..] <==> j == k || j in s.active[n + 1..];
    }
    assert ClosedFrom(s1, n + 1).watches == ClosedFrom(s, n).watches;
  }

  lemma CloseLast(s: P.State, n: nat)
    requires !s.panicked && s.lock == P.ClosingAll(n) && n == |s.active|
    ensures P.Leads(s, [P.CloseEnd] + [], ClosedFrom(s, n))
  {
    assert ClosedFrom(s, n).watches == s.watches;
    P.Prepended(s, P.CloseEnd, s.(active := [], lock := P.Free), [], ClosedFrom(s, n));
  }

  lemma {:induction false} CloseAll(s: P.State, n: nat) returns (run: seq<P.Action>)
    requires P.Inv(s) && !s.panicked && s.lock == P.ClosingAll(n)
    ensures n <= |s.active| && P.Leads(s, run, ClosedFrom(s, n))
    decreases |s.active| - n
  {
    if n == |s.active| {
      CloseLast(s, n);
      run := [P.CloseEnd] + [];
    } else {
      var s1 := P.Step(s, P.CloseNext);
      P.CloseNextKeeps(s);
      ClosedNext(s, n);
      run := CloseAll(s1, n + 1);
      P.Prepended(s, P.CloseNext, s1, run, ClosedFrom(s, n));
      run := [P.CloseNext] + run;
    }
  }

  ghost function Updated(s: P.State, v: Option<int>): P.State {
    if s.closed then s else Sent(s.(value := v, version := s.version + 1), 0)
  }

  lemma SentIgnoresLock(s: P.State, lock: P.Lock)
    ensures Sent(s.(lock := lock), 0) == Sent(s, 0)
  {
    assert Sent(s.(lock := lock), 0).watches == Sent(s, 0).watches;
  }

  /** Update without interruption leads to that state. */
  lemma UpdateRun(s: P.State, v: Option<int>) returns (run: seq<P.Action>)
    requires P.Inv(s) && P.Enabled(s, P.UpdateBegin(v))
    ensures P.Leads(s, run, Updated(s, v))
  {
    var s1 := P.Step(s, P.UpdateBegin(v));
    P.InvStep(s, P.UpdateBegin(v));
    run := [];
    if !s.closed {
      SentIgnoresLock(s.(value := v, version := s.version + 1), s1.lock);
      run := SendAll(s1, 0);
    }
    P.Prepended(s, P.UpdateBegin(v), s1, run, Updated(s, v));
    run := [P.UpdateBegin(v)] + run;
  }

  ghost function Closed(s: P.State): P.State {
    if s.closed then s else ClosedFrom(s.(closed := true), 0)
  }

  lemma CloseRun(s: P.State) returns (run: seq<P.Action>)
    requires P.Inv(s) && P.Enabled(s, P.CloseBegin)
    ensures P.Leads(s, run, Closed(s))
  {
    var s1 := P.Step(s, P.CloseBegin);
    P.InvStep(s, P.CloseBegin);
    run := [];
    if !s.closed {
      run := CloseAll(s1, 0);
    }
    P.Prepended(s, P.CloseBegin, s1, run, Closed(s));
    run := [P.CloseBegin] + run;
  }

  // ---- the watchable and its watches ---------------------------------------

  ghost predicate WatchAgrees(w: Watchable, x: Watch, y: P.Watch)
    reads x, x.c
  {
    && x.o == w && x.c.token == y.token && x.c.closed == y.chanClosed
    && !y.sending && y.closing != P.Begun && (x.closed <==> y.closing == P.Over)
  }

  ghost predicate Apart(ws: seq<Watch>) {
    forall i, j :: 0 <= i < j < |ws| ==> ws[i] != ws[j] && ws[i].c != ws[j].c
  }

  ghost predicate ActiveAgrees(active: seq<Chan>, ws: seq<Watch>, numbers: seq<nat>) {
    && |active| == |numbers|
    && forall i :: 0 <= i < |active| ==> numbers[i] < |ws| && active[i] == ws[numbers[i]].c
  }

  ghost function Channels(ws: seq<Watch>): set<Chan> {
    set x | x in ws :: x.c
  }

  /** No call is under way, and the objects are as the state says. */
  ghost predicate Agrees(w: Watchable, ws: seq<Watch>, s: P.State)
    reads w, ws, Channels(ws)
  {
    && s.lock.Free? && !s.panicked
    && w.value == s.value && w.closed == s.closed && ActiveAgrees(w.active, ws, s.active)
    && |ws| == |s.watches| && Apart(ws)
    && forall k :: 0 <= k < |ws| ==> WatchAgrees(w, ws[k], s.watches[k])
  }

  lemma AgreesValid(w: Watchable, ws: seq<Watch>, s: P.State)
    requires P.Inv(s) && Agrees(w, ws, s)
    ensures w.Valid()
    ensures forall k :: 0 <= k < |ws| ==> ws[k].Valid() && (ws[k].c in w.active <==> k in s.active)
  {
    forall k | 0 <= k < |ws| ensures ws[k].Valid() && (ws[k].c in w.active <==> k in s.active) {
      assert P.WatchOk(s, k) && WatchAgrees(w, ws[k], s.watches[k]);
      if k in s.active {
        var i :| 0 <= i < |s.active| && s.active[i] == k;
        assert w.active[i] == ws[k].c;
      }
    }
    forall c | c in w.active ensures !c.closed {
      var i :| 0 <= i < |w.active| && w.active[i] == c;
      assert P.WatchOk(s, s.active[i]) && WatchAgrees(w, ws[s.active[i]], s.watches[s.active[i]]);
    }
  }

  /** Update is a run of the protocol. */
  method Update(w: Watchable, ws: seq<Watch>, ghost s: P.State, v: Option<int>)
      returns (ok: bool, ghost run: seq<P.Action>, ghost s': P.State)
    requires P.Inv(s) && Agrees(w, ws, s)
    modifies w, Channels(ws)
    ensures ok == !s.closed && s' == Updated(s, v) && P.Leads(s, run, s') && Agrees(w, ws, s')
  {
    AgreesValid(w, ws, s);
    run := UpdateRun(s, v);
    s' := Updated(s, v);
    ok := w.Update(v);
    forall k | 0 <= k < |ws| ensures WatchAgrees(w, ws[k], s'.watches[k]) {
      assert old(WatchAgrees(w, ws[k], s.watches[k]));
    }
  }

  /** Close of the watchable is a run of the protocol. */
  method Close(w: Watchable, ws: seq<Watch>, ghost s: P.State) returns (ghost run: seq<P.Action>, ghost s': P.State)
    requires P.Inv(s) && Agrees(w, ws, s)
    modifies w, Channels(ws)
    ensures s' == Closed(s) && P.Leads(s, run, s') && Agrees(w, ws, s')
  {
    AgreesValid(w, ws, s);
    run := CloseRun(s);
    s' := Closed(s);
    w.Close();
    forall k | 0 <= k < |ws| ensures WatchAgrees(w, ws[k], s'.watches[k]) {
      assert old(WatchAgrees(w, ws[k], s.watches[k]));
    }
  }

  /** Watch without interruption: the locked part, and then its own notification. */
  ghost function Watched(s: P.State): P.State
    requires P.Enabled(s, P.WatchLocked)
  {
    if s.closed then s else P.Step(P.Step(s, P.WatchLocked), P.WatchSend(|s.watches|))
  }

  ghost function NewWatchIn(s: P.State): P.Watch {
    P.Watch(false, s.value.Some?, s.value.Some?, false, 0, P.NotClosed, false, false, None, s.version)
  }

  ghost function WithWatch(s: P.State): P.State {
    s.(watches := s.watches + [NewWatchIn(s)], active := s.active + [|s.watches|])
  }

  lemma WatchedShape(s: P.State)
    requires P.Enabled(s, P.WatchLocked) && !s.closed
    ensures Watched(s) == WithWatch(s)
  {
    var n, s1 := |s.watches|, P.Step(s, P.WatchLocked);
    var sent := s1.watches[n].(token := s.value.Some?);
    assert s1.watches[n := sent][n := NewWatchIn(s)] == s.watches + [NewWatchIn(s)];
    assert s1.watches[n := NewWatchIn(s)] == s.watches + [NewWatchIn(s)];
  }

  lemma WatchedRun(s: P.State) returns (run: seq<P.Action>)
    requires P.Enabled(s, P.WatchLocked)
    ensures P.Leads(s, run, Watched(s))
  {
    var s1 := P.Step(s, P.WatchLocked);
    run := [];
    if !s.closed {
      P.Prepended(s1, P.WatchSend(|s.watches|), Watched(s), [], Watched(s));
      run := [P.WatchSend(|s.watches|)] + [];
    }
    P.Prepended(s, P.WatchLocked, s1, run, Watched(s));
    run := [P.WatchLocked] + run;
  }

  /** Watch is a run of the protocol; the new watch is the last one. */
  method NewWatch(w: Watchable, ws: seq<Watch>, ghost s: P.State)
      returns (ws': seq<Watch>, ghost run: seq<P.Action>, ghost s': P.State)
    requires P.Inv(s) && Agrees(w, ws, s)
    modifies w
    ensures ws <= ws' && |ws'| == |ws| + (if s.closed then 0 else 1)
    ensures s' == Watched(s) && P.Leads(s, run, s') && Agrees(w, ws', s')
  {
    AgreesValid(w, ws, s);
    run := WatchedRun(s);
    s' := Watched(s);
    if !s.closed {
      WatchedShape(s);
    }
    ws' := WatchAgreeing(w, ws, s);
  }

  method WatchAgreeing(w: Watchable, ws: seq<Watch>, ghost s: P.State) returns (ws': seq<Watch>)
    requires Agrees(w, ws, s) && w.Valid()
    modifies w
    ensures ws <= ws' && |ws'| == |ws| + (if s.closed then 0 else 1)
    ensures Agrees(w, ws', if s.closed then s else WithWatch(s))
  {
    ghost var s' := if s.closed then s else WithWatch(s);
    var r, v := w.Watch();
    ws' := if r.Some? then ws + [r.value] else ws;
    forall k | 0 <= k < |ws'| ensures WatchAgrees(w, ws'[k], s'.watches[k]) {
      if k < |ws| {
        assert old(WatchAgrees(w, ws[k], s.watches[k]));
      }
    }
  }

  /** Close of a watch without interruption: the flag, and then the close function. */
  ghost function WatchClosed(s: P.State, k: nat): P.State
    requires P.Enabled(s, P.WatchClose(k)) && s.lock.Free?
  {
    if s.watches[k].closing == P.Over then s else P.Step(P.Step(s, P.WatchClose(k)), P.CloseFn(k))
  }

  ghost function ClosedState(s: P.State, k: nat): P.State
    requires s.Has(k)
  {
    var x := s.watches[k];
    if x.closing == P.Over then s
    else if s.closed then s.Put(k, x.(closing := P.Over))
    else s.Put(k, x.(closing := P.Over, chanClosed := true, closes := x.closes + 1, selfClosed := true))
          .(active := Without(s.active, k))
  }

  lemma WatchClosedShape(s: P.State, k: nat)
    requires P.Inv(s) && P.Enabled(s, P.WatchClose(k)) && s.lock.Free?
    ensures WatchClosed(s, k) == ClosedState(s, k)
  {
    assert P.WatchOk(s, k);
  }

  lemma WatchClosedRun(s: P.State, k: nat) returns (run: seq<P.Action>)
    requires P.Enabled(s, P.WatchClose(k)) && s.lock.Free?
    ensures P.Leads(s, run, WatchClosed(s, k))
  {
    var s1 := P.Step(s, P.WatchClose(k));
    run := [];
    if s.watches[k].closing != P.Over {
      P.Prepended(s1, P.CloseFn(k), WatchClosed(s, k), [], WatchClosed(s, k));
      run := [P.CloseFn(k)] + [];
    }
    P.Prepended(s, P.WatchClose(k), s1, run, WatchClosed(s, k));
    run := [P.WatchClose(k)] + run;
  }

  lemma {:induction false} WithoutAgrees(active: seq<Chan>, ws: seq<Watch>, numbers: seq<nat>, k: nat)
    requires ActiveAgrees(active, ws, numbers) && Apart(ws) && k < |ws|
    ensures ActiveAgrees(Without(active, ws[k].c), ws, Without(numbers, k))
  {
    if active != [] {
      var head, n := active[0], numbers[0];
      assert head == ws[n].c && (head == ws[k].c <==> n == k);
      assert ActiveAgrees(active[1..], ws, numbers[1..]);
      if n != k {
        WithoutAgrees(active[1..], ws, numbers[1..], k);
        ConsAgrees(head, Without(active[1..], ws[k].c), ws, n, Without(numbers[1..], k));
      }
    }
  }

  lemma ConsAgrees(head: Chan, active: seq<Chan>, ws: seq<Watch>, n: nat, numbers: seq<nat>)
    requires ActiveAgrees(active, ws, numbers) && n < |ws| && head == ws[n].c
    ensures ActiveAgrees([head] + active, ws, [n] + numbers)
  {
  }

  /** Close of a watch is a run of the protocol. */
  method CloseWatch(w: Watchable, ws: seq<Watch>, ghost s: P.State, k: nat) returns (ghost run: seq<P.Action>, ghost s': P.State)
    requires P.Inv(s) && Agrees(w, ws, s) && k < |ws|
    modifies w, ws, Channels(ws)
    ensures P.Enabled(s, P.WatchClose(k)) && s' == WatchClosed(s, k) && P.Leads(s, run, s') && Agrees(w, ws, s')
  {
    AgreesValid(w, ws, s);
    assert WatchAgrees(w, ws[k], s.watches[k]);
    WithoutAgrees(w.active, ws, s.active, k);
    WatchClosedShape(s, k);
    run := WatchClosedRun(s, k);
    s' := WatchClosed(s, k);
    CloseAgreeing(w, ws, s, k);
  }

  method CloseAgreeing(w: Watchable, ws: seq<Watch>, ghost s: P.State, k: nat)
    requires Agrees(w, ws, s) && k < |ws| && w.Valid() && ws[k].Valid() && ws[k].o == w
    requires ActiveAgrees(Without(w.active, ws[k].c), ws, Without(s.active, k))
    modifies w, ws, Channels(ws)
    ensures Agrees(w, ws, ClosedState(s, k))
  {
    ghost var s' := ClosedState(s, k);
    ws[k].Close();
    assert ActiveAgrees(w.active, ws, s'.active);
    forall j | 0 <= j < |ws| ensures WatchAgrees(w, ws[j], s'.watches[j]) {
      assert old(WatchAgrees(w, ws[j], s.watches[j]));
    }
  }

  /** Taking a notification is one step. */
  method Take(w: Watchable, ws: seq<Watch>, ghost s: P.State, k: nat) returns (ghost s': P.State)
    requires Agrees(w, ws, s) && k < |ws| && ws[k].c.token
    modifies Channels(ws)
    ensures P.Enabled(s, P.Take(k)) && s' == P.Step(s, P.Take(k)) && Agrees(w, ws, s')
  {
    assert WatchAgrees(w, ws[k], s.watches[k]);
    s' := P.Step(s, P.Take(k));
    ws[k].c.Receive();
    forall j | 0 <= j < |ws| ensures WatchAgrees(w, ws[j], s'.watches[j]) {
      assert old(WatchAgrees(w, ws[j], s.watches[j]));
    }
  }

  /** So is reading the value, which is what the consumer has seen then. */
  method Read(w: Watchable, ws: seq<Watch>, ghost s: P.State, k: nat) returns (v: Option<int>, ghost s': P.State)
    requires Agrees(w, ws, s) && k < |ws| && s.watches[k].owing
    ensures P.Enabled(s, P.Read(k)) && s' == P.Step(s, P.Read(k)) && Agrees(w, ws, s')
    ensures s'.watches[k].seen.Some? && s'.watches[k].seen.value.value == v
  {
    assert WatchAgrees(w, ws[k], s.watches[k]);
    s' := P.Step(s, P.Read(k));
    v := ws[k].Get();
    forall j | 0 <= j < |ws| ensures WatchAgrees(w, ws[j], s'.watches[j]) {
      assert WatchAgrees(w, ws[j], s.watches[j]);
    }
  }

  // ---- the watched value ---------------------------------------------------

  /** For which updatables the process function ran, according to the log. */
  ghost function ProcessedIn(us: seq<Updatable>, log: seq<V.Event>): seq<Updatable> {
    if log == [] then []
    else
      var e := log[|log| - 1];
      ProcessedIn(us, log[..|log| - 1]) + if V.IsProcess(e) && e.u < |us| then [us[e.u]] else []
  }

  lemma {:induction false} MoreUpdatables(us: seq<Updatable>, u: Updatable, log: seq<V.Event>)
    requires forall e :: e in log && V.IsProcess(e) ==> e.u < |us|
    ensures ProcessedIn(us + [u], log) == ProcessedIn(us, log)
  {
    if log != [] {
      assert log[|log| - 1] in log;
      MoreUpdatables(us, u, log[..|log| - 1]);
    }
  }

  lemma ProcessedSnoc(us: seq<Updatable>, log: seq<V.Event>, e: V.Event)
    ensures ProcessedIn(us, log + [e]) == ProcessedIn(us, log) + if V.IsProcess(e) && e.u < |us| then [us[e.u]] else []
  {
    assert (log + [e])[..|log|] == log;
  }

  ghost predicate ValueAgrees(v: Value, us: seq<Updatable>, s: V.State)
    reads v, us
  {
    && !s.initializing && v.watching == s.watching == s.updatable.Some?
    && |us| == |s.updatables| && Distinct(us)
    && (match s.updatable case Some(u) => u < |us| && v.updatable == us[u] case None => v.updatable == null)
    && (forall u :: 0 <= u < |us| ==> us[u].closes == s.updatables[u].closes)
    && (forall e :: e in s.log && V.IsProcess(e) ==> e.u < |us|)
    && v.processed == ProcessedIn(us, s.log)
  }

  /** Unwatch is one step. */
  method Unwatch(v: Value, us: seq<Updatable>, ghost s: V.State) returns (ghost s': V.State)
    requires ValueAgrees(v, us, s)
    modifies v, us
    ensures V.Enabled(s, V.Unwatch) && s' == V.Step(s, V.Unwatch) && ValueAgrees(v, us, s')
  {
    s' := V.Step(s, V.Unwatch);
    if s.watching {
      ProcessedSnoc(us, s.log, V.Unwatched(s.updatable.value));
    }
    v.Unwatch();
  }

  /** What the update loop does with a notification is one step, whatever happened since the
      notification was received. */
  method HandleUpdate(v: Value, us: seq<Updatable>, ghost s: V.State, ghost r: nat, u: Updatable, outcome: V.Outcome)
      returns (goesOn: bool, ghost s': V.State)
    requires ValueAgrees(v, us, s) && V.Enabled(s, V.Handle(r, outcome))
    requires s.routines[r].u < |us| && us[s.routines[r].u] == u
    modifies v
    ensures s' == V.Step(s, V.Handle(r, outcome)) && ValueAgrees(v, us, s')
    ensures goesOn == !s'.routines[r].stage.Exited?
  {
    s' := V.Step(s, V.Handle(r, outcome));
    ProcessedSnoc(us, s.log, V.ProcessedUpdate(s.routines[r].u, r));
    goesOn := v.HandleUpdate(u, outcome);
  }

  /** Watch without interruption: it makes an updatable, is notified or not, and goes on. */
  ghost function WatchActions(s: V.State, outcome: V.Outcome): seq<V.Action> {
    if s.watching then [V.WatchBegin(true)]
    else if outcome.Timeout? then [V.WatchBegin(true), V.WatchFirst(outcome)]
    else [V.WatchBegin(true), V.Notify(|s.updatables|), V.WatchFirst(outcome)]
  }

  /** What that leads to. */
  ghost function WatchedValue(s: V.State, outcome: V.Outcome): V.State {
    var u := |s.updatables|;
    if s.watching then s
    else s.(watching := true, updatable := Some(u),
            updatables := s.updatables + [V.Updatable(false, false, 0)],
            routines := s.routines + [V.Routine(u, V.Receiving)],
            log := s.log + [V.Watched(u)] + if outcome.Processed? then [V.ProcessedFirst(u)] else [])
  }

  lemma WatchedValueRun(s: V.State, outcome: V.Outcome)
    requires !s.initializing
    ensures V.Leads(s, WatchActions(s, outcome), WatchedValue(s, outcome))
  {
    var run, s' := WatchActions(s, outcome), WatchedValue(s, outcome);
    var s1 := V.Step(s, V.WatchBegin(true));
    if s.watching {
      assert run[1..] == [];
    } else if outcome.Timeout? {
      assert run[1..] == [V.WatchFirst(outcome)] && run[1..][1..] == [];
      assert V.Step(s1, V.WatchFirst(outcome)) == s';
    } else {
      var u := |s.updatables|;
      var s2 := V.Step(s1, V.Notify(u));
      assert run[1..] == [V.Notify(u), V.WatchFirst(outcome)] && run[1..][1..] == [V.WatchFirst(outcome)];
      assert run[1..][1..][1..] == [];
      assert V.Step(s2, V.WatchFirst(outcome)).updatables == s'.updatables;
      assert V.Step(s2, V.WatchFirst(outcome)) == s';
      assert V.Leads(s2, run[1..][1..], s');
      assert V.Leads(s1, run[1..], s');
    }
  }

  /** What the log says was processed, after a Watch. */
  lemma LogAfterWatch(us: seq<Updatable>, log: seq<V.Event>, processed: bool)
    requires us != []
    ensures var u := |us| - 1;
            ProcessedIn(us, log + [V.Watched(u)] + (if processed then [V.ProcessedFirst(u)] else []))
              == ProcessedIn(us, log) + if processed then [us[u]] else []
  {
    var u := |us| - 1;
    ProcessedSnoc(us, log, V.Watched(u));
    if processed {
      ProcessedSnoc(us, log + [V.Watched(u)], V.ProcessedFirst(u));
    } else {
      assert log + [V.Watched(u)] + [] == log + [V.Watched(u)];
    }
  }

  lemma WatchedLog(us: seq<Updatable>, u: Updatable, s: V.State, outcome: V.Outcome)
    requires !s.watching && |us| == |s.updatables|
    requires forall e :: e in s.log && V.IsProcess(e) ==> e.u < |us|
    ensures var log := WatchedValue(s, outcome).log;
            && (forall e :: e in log && V.IsProcess(e) ==> e.u < |us + [u]|)
            && ProcessedIn(us + [u], log) == ProcessedIn(us, s.log) + if outcome.Processed? then [u] else []
  {
    MoreUpdatables(us, u, s.log);
    LogAfterWatch(us + [u], s.log, outcome.Processed?);
  }

  /** Watch is a run of the protocol. */
  method WatchValue(v: Value, us: seq<Updatable>, ghost s: V.State, outcome: V.Outcome)
      returns (us': seq<Updatable>, ghost s': V.State)
    requires ValueAgrees(v, us, s)
    modifies v
    ensures V.Leads(s, WatchActions(s, outcome), s') && s' == WatchedValue(s, outcome)
    ensures us <= us' && ValueAgrees(v, us', s')
  {
    WatchedValueRun(s, outcome);
    s' := WatchedValue(s, outcome);
    us' := us;
    if !v.watching {
      us' := StartWatching(v, us, s, outcome);
    }
  }

  method StartWatching(v: Value, us: seq<Updatable>, ghost s: V.State, outcome: V.Outcome) returns (us': seq<Updatable>)
    requires ValueAgrees(v, us, s) && !s.watching
    modifies v
    ensures us <= us' && ValueAgrees(v, us', WatchedValue(s, outcome))
  {
    var u := new Updatable();
    us' := us + [u];
    WatchedLog(us, u, s, outcome);
    var started := v.Watch(u, outcome);
  }
}
