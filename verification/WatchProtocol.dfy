/**
 Watching a value (watch/watch.go), as interleaved steps.

 Update and Close of the watchable hold its lock over a loop, but the channels can be
 received from at any time, so each iteration is a step of its own.  Watch sends its first
 notification after it has released the lock, which is a step of its own as well.  A watch
 has one consumer, who takes a notification from the channel and then reads the value.

 A send on a closed channel and the closing of a closed channel panic; a panicked system
 takes no more steps.  The version counts the updates; no step looks at it.
 */
module WatchProtocol {
  import opened Common

  /** What a reader saw: the number of the update, and the value. */
  datatype Snapshot = Snapshot(version: nat, value: Option<int>)

  datatype Closing = NotClosed | Begun | Over

  datatype Watch = Watch(
    sending: bool,          // Watch has unlocked but has not sent its own notification yet
    notify: bool,
    token: bool,            // the one slot of the channel
    chanClosed: bool,
    closes: nat,            // how often the channel was closed
    closing: Closing,       // how far Close of this watch has come
    selfClosed: bool,       // the channel was closed by Close of this watch
    owing: bool,            // the consumer took a notification and has not read yet
    seen: Option<Snapshot>, // what the consumer read last
    birth: nat)             // the version when the watch was made

  datatype Lock = Free | Updating(next: nat) | ClosingAll(next: nat)

  datatype State = State(
    value: Option<int>,
    version: nat,
    active: seq<nat>,
    closed: bool,
    watches: seq<Watch>,
    lock: Lock,
    panicked: bool)
  {
    predicate Has(k: nat) {
      k < |watches|
    }

    function Put(k: nat, w: Watch): State
      requires Has(k)
    {
      this.(watches := watches[k := w])
    }
  }

  const INITIAL: State := State(None, 0, [], false, [], Free, false)

  /** A send that gives up when the slot is taken. */
  function TrySend(s: State, k: nat): State
    requires s.Has(k)
  {
    if s.watches[k].chanClosed then s.(panicked := true) else s.Put(k, s.watches[k].(token := true))
  }

  function CloseChan(s: State, k: nat, bySelf: bool): State
    requires s.Has(k)
  {
    var w := s.watches[k];
    if w.chanClosed then s.(panicked := true)
    else s.Put(k, w.(chanClosed := true, closes := w.closes + 1, selfClosed := bySelf))
  }

  datatype Action =
    | WatchLocked             // the locked part of Watch
    | WatchSend(k: nat)       // Watch's own notification, after the lock
    | UpdateBegin(v: Option<int>)
    | UpdateSend
    | UpdateEnd
    | CloseBegin
    | CloseNext
    | CloseEnd
    | WatchClose(k: nat)      // Close of a watch sets its flag ...
    | CloseFn(k: nat)         // ... and calls its close function
    | Take(k: nat)
    | Read(k: nat)

  predicate Enabled(s: State, a: Action) {
    !s.panicked &&
    match a
    case WatchLocked => s.lock.Free?
    case WatchSend(k) => s.Has(k) && s.watches[k].sending
    case UpdateBegin(v) => s.lock.Free?
    case UpdateSend => s.lock.Updating? && s.lock.next < |s.active| && s.Has(s.active[s.lock.next])
    case UpdateEnd => s.lock.Updating? && s.lock.next == |s.active|
    case CloseBegin => s.lock.Free?
    case CloseNext => s.lock.ClosingAll? && s.lock.next < |s.active| && s.Has(s.active[s.lock.next])
    case CloseEnd => s.lock.ClosingAll? && s.lock.next == |s.active|
    case WatchClose(k) => s.Has(k) && !s.watches[k].sending && s.watches[k].closing != Begun
    case CloseFn(k) => s.Has(k) && s.watches[k].closing == Begun && s.lock.Free?
    case Take(k) => s.Has(k) && !s.watches[k].sending && s.watches[k].token
    case Read(k) => s.Has(k) && s.watches[k].owing && s.lock.Free?
  }

  function Step(s: State, a: Action): State
    requires Enabled(s, a)
  {
    match a
    case WatchLocked =>
      if s.closed then s
      else s.(watches := s.watches + [Watch(true, s.value.Some?, false, false, 0, NotClosed, false, false, None, s.version)],
              active := s.active + [|s.watches|])
    case WatchSend(k) =>
      var s' := if s.watches[k].notify then TrySend(s, k) else s;
      s'.Put(k, s'.watches[k].(sending := false))
    case UpdateBegin(v) =>
      if s.closed then s else s.(value := v, version := s.version + 1, lock := Updating(0))
    case UpdateSend => TrySend(s, s.active[s.lock.next]).(lock := Updating(s.lock.next + 1))
    case UpdateEnd => s.(lock := Free)
    case CloseBegin => if s.closed then s else s.(closed := true, lock := ClosingAll(0))
    case CloseNext => CloseChan(s, s.active[s.lock.next], false).(lock := ClosingAll(s.lock.next + 1))
    case CloseEnd => s.(active := [], lock := Free)
    case WatchClose(k) =>
      if s.watches[k].closing == Over then s else s.Put(k, s.watches[k].(closing := Begun))
    case CloseFn(k) =>
      var s' := if s.closed then s else CloseChan(s, k, true).(active := Without(s.active, k));
      s'.Put(k, s'.watches[k].(closing := Over))
    case Take(k) => s.Put(k, s.watches[k].(token := false, owing := true))
    case Read(k) => s.Put(k, s.watches[k].(owing := false, seen := Some(Snapshot(s.version, s.value))))
  }

  ghost predicate Leads(s: State, run: seq<Action>, s': State)
    decreases |run|
  {
    if run == [] then s' == s
    else Enabled(s, run[0]) && Leads(Step(s, run[0]), run[1..], s')
  }

  ghost predicate Reachable(s: State) {
    exists run :: Leads(INITIAL, run, s)
  }

  // ---- channels are closed once, and active holds the open ones ------------

  /** The part of active that the closing loop has not reached. */
  function Unclosed(s: State): seq<nat> {
    if s.lock.ClosingAll? && s.lock.next <= |s.active| then s.active[s.lock.next..] else s.active
  }

  ghost predicate WatchOk(s: State, k: nat)
    requires s.Has(k)
  {
    var w := s.watches[k];
    && (k in Unclosed(s) <==> !w.chanClosed)
    && w.closes == (if w.chanClosed then 1 else 0)
    && (w.chanClosed && !s.closed ==> w.closing == Over && w.selfClosed)
    && (w.sending ==> w.closing == NotClosed && !w.owing)
    && (w.selfClosed ==> w.chanClosed && w.closing == Over)
  }

  ghost predicate LockOk(s: State) {
    match s.lock
    case Free => s.closed ==> s.active == []
    case Updating(next) => !s.closed && next <= |s.active|
    case ClosingAll(next) => s.closed && next <= |s.active|
  }

  ghost predicate Shape(s: State) {
    && LockOk(s)
    && Distinct(s.active)
    && (forall i :: 0 <= i < |s.active| ==> s.Has(s.active[i]))
    && (forall k :: 0 <= k < |s.watches| ==> WatchOk(s, k))
  }

  // ---- no wakeup is lost ---------------------------------------------------

  /** The consumer knows the current value, or will be woken up, or there is nothing that
      it should be woken up for. */
  ghost predicate Awake(s: State, k: nat)
    requires s.Has(k)
  {
    var w := s.watches[k];
    || w.token || w.owing
    || w.seen == Some(Snapshot(s.version, s.value))
    || (w.sending && w.notify)
    || (s.value.None? && s.version == w.birth)
    || (s.lock.Updating? && s.lock.next <= |s.active| && k in s.active[s.lock.next..])
  }

  ghost predicate AllAwake(s: State) {
    forall k :: 0 <= k < |s.watches| && !s.watches[k].selfClosed ==> Awake(s, k)
  }

  ghost predicate Inv(s: State) {
    !s.panicked ==> Shape(s) && AllAwake(s)
  }

  // ---- the steps -----------------------------------------------------------

  /** A change to one watch that leaves its channel open or closed as it was. */
  lemma PutKeepsShape(s: State, k: nat, w: Watch)
    requires Shape(s) && s.Has(k)
    requires w.chanClosed == s.watches[k].chanClosed
    requires WatchOk(s.Put(k, w), k)
    ensures Shape(s.Put(k, w))
  {
    var s' := s.Put(k, w);
    assert Unclosed(s') == Unclosed(s);
    forall j | 0 <= j < |s'.watches| ensures WatchOk(s', j) {
      assert WatchOk(s, j);
    }
  }

  lemma PutKeepsAwake(s: State, k: nat, w: Watch)
    requires AllAwake(s) && s.Has(k)
    requires !w.selfClosed ==> Awake(s.Put(k, w), k)
    ensures AllAwake(s.Put(k, w))
  {
    var s' := s.Put(k, w);
    forall j | 0 <= j < |s'.watches| && !s'.watches[j].selfClosed ensures Awake(s', j) {
      assert j != k ==> Awake(s, j);
    }
  }

  lemma WatchLockedKeeps(s: State)
    requires Enabled(s, WatchLocked) && Inv(s)
    ensures Inv(Step(s, WatchLocked))
  {
    if !s.closed {
      var s', n := Step(s, WatchLocked), |s.watches|;
      forall k | 0 <= k < |s'.watches| ensures WatchOk(s', k) {
        if k < n {
          assert WatchOk(s, k);
          assert k in s'.active <==> k in s.active;
        } else {
          assert s'.active[|s.active|] == n;
        }
      }
      forall k | 0 <= k < |s'.watches| && !s'.watches[k].selfClosed ensures Awake(s', k) {
        assert k < n ==> Awake(s, k);
      }
    }
  }

  lemma WatchSendKeeps(s: State, k: nat)
    requires Enabled(s, WatchSend(k)) && Inv(s)
    ensures Inv(Step(s, WatchSend(k)))
  {
    var s', w := Step(s, WatchSend(k)), s.watches[k];
    assert WatchOk(s, k) && Awake(s, k);
    if !s'.panicked {
      var w' := if w.notify then w.(token := true, sending := false) else w.(sending := false);
      assert s' == s.Put(k, w');
      assert Unclosed(s') == Unclosed(s);
      PutKeepsShape(s, k, w');
      PutKeepsAwake(s, k, w');
    }
  }

  lemma UpdateBeginKeeps(s: State, v: Option<int>)
    requires Enabled(s, UpdateBegin(v)) && Inv(s)
    ensures Inv(Step(s, UpdateBegin(v)))
  {
    if !s.closed {
      var s' := Step(s, UpdateBegin(v));
      forall k | 0 <= k < |s'.watches| ensures WatchOk(s', k) && (!s'.watches[k].selfClosed ==> Awake(s', k)) {
        assert WatchOk(s, k);
        assert s'.active[0..] == s.active;
      }
    }
  }

  lemma UpdateSendKeeps(s: State)
    requires Enabled(s, UpdateSend) && Inv(s)
    ensures Inv(Step(s, UpdateSend)) && !Step(s, UpdateSend).panicked
  {
    var s', n := Step(s, UpdateSend), s.lock.next;
    var k := s.active[n];
    assert WatchOk(s, k);
    assert s' == s.Put(k, s.watches[k].(token := true)).(lock := Updating(n + 1));
    forall j | 0 <= j < |s'.watches| ensures WatchOk(s', j) {
      assert WatchOk(s, j);
    }
    forall j | 0 <= j < |s'.watches| && !s'.watches[j].selfClosed ensures Awake(s', j) {
      assert Awake(s, j);
      if j != k && j in s.active[n..] {
        assert s.active[n..] == [k] + s.active[n + 1..];
      }
    }
  }

  lemma CloseNextKeeps(s: State)
    requires Enabled(s, CloseNext) && Inv(s)
    ensures Inv(Step(s, CloseNext)) && !Step(s, CloseNext).panicked
  {
    var s', n := Step(s, CloseNext), s.lock.next;
    var k := s.active[n];
    assert Unclosed(s) == [k] + s.active[n + 1..];
    assert WatchOk(s, k);
    assert Unclosed(s') == s.active[n + 1..];
    assert k !in s.active[n + 1..];
    forall j | 0 <= j < |s'.watches| ensures WatchOk(s', j) {
      assert WatchOk(s, j);
    }
    forall j | 0 <= j < |s'.watches| && !s'.watches[j].selfClosed ensures Awake(s', j) {
      assert Awake(s, j);
    }
  }

  lemma CloseFnKeeps(s: State, k: nat)
    requires Enabled(s, CloseFn(k)) && Inv(s)
    ensures Inv(Step(s, CloseFn(k))) && !Step(s, CloseFn(k)).panicked
  {
    var s', w := Step(s, CloseFn(k)), s.watches[k];
    assert WatchOk(s, k);
    if s.closed {
      PutKeepsShape(s, k, w.(closing := Over));
      assert !w.selfClosed ==> Awake(s, k);
      PutKeepsAwake(s, k, w.(closing := Over));
    } else {
      WithoutIs(s.active, k);
      assert s'.active == Without(s.active, k);
      forall i | 0 <= i < |s'.active| ensures s'.Has(s'.active[i]) {
        assert s'.active[i] in s.active;
      }
      forall j | 0 <= j < |s'.watches| ensures WatchOk(s', j) {
        assert WatchOk(s, j);
      }
      forall j | 0 <= j < |s'.watches| && !s'.watches[j].selfClosed ensures Awake(s', j) {
        assert Awake(s, j);
      }
    }
  }

  /** Steps that only move the lock. */
  lemma LockKeeps(s: State, a: Action)
    requires Enabled(s, a) && Inv(s) && (a.UpdateEnd? || a.CloseBegin? || a.CloseEnd?)
    ensures Inv(Step(s, a)) && !Step(s, a).panicked
  {
    var s' := Step(s, a);
    assert a.CloseBegin? && !s.closed ==> Unclosed(s') == s.active;
    assert a.CloseEnd? ==> Unclosed(s) == [];
    forall k | 0 <= k < |s'.watches| ensures WatchOk(s', k) && (!s'.watches[k].selfClosed ==> Awake(s', k)) {
      assert WatchOk(s, k);
      assert !s.watches[k].selfClosed ==> Awake(s, k);
    }
  }

  lemma ConsumerKeeps(s: State, a: Action)
    requires Enabled(s, a) && Inv(s) && (a.Take? || a.Read? || a.WatchClose?)
    ensures Inv(Step(s, a)) && !Step(s, a).panicked
  {
    var k := a.k;
    assert WatchOk(s, k) && (!s.watches[k].selfClosed ==> Awake(s, k));
    var s' := Step(s, a);
    if s' != s {
      PutKeepsShape(s, k, s'.watches[k]);
      PutKeepsAwake(s, k, s'.watches[k]);
      assert s' == s.Put(k, s'.watches[k]);
    }
  }

  lemma InvStep(s: State, a: Action)
    requires Enabled(s, a) && Inv(s)
    ensures Inv(Step(s, a))
  {
    match a
    case WatchLocked => WatchLockedKeeps(s);
    case WatchSend(k) => WatchSendKeeps(s, k);
    case UpdateBegin(v) => UpdateBeginKeeps(s, v);
    case UpdateSend => UpdateSendKeeps(s);
    case CloseNext => CloseNextKeeps(s);
    case CloseFn(k) => CloseFnKeeps(s, k);
    case Take(_) => ConsumerKeeps(s, a);
    case Read(_) => ConsumerKeeps(s, a);
    case WatchClose(_) => ConsumerKeeps(s, a);
    case _ => LockKeeps(s, a);
  }

  lemma {:induction false} InvRun(s: State, run: seq<Action>, s': State)
    requires Inv(s) && Leads(s, run, s')
    ensures Inv(s')
    decreases |run|
  {
    if run != [] {
      InvStep(s, run[0]);
      InvRun(Step(s, run[0]), run[1..], s');
    }
  }

  lemma InvReachable(s: State)
    requires Reachable(s)
    ensures Inv(s)
  {
    var run :| Leads(INITIAL, run, s);
    InvRun(INITIAL, run, s);
  }

  // ---- what follows --------------------------------------------------------

  /** In every interleaving each channel has been closed at most once, the active list
      holds, each once, exactly the channels that are open, and Update and the two ways to
      close never panic. */
  lemma ChannelsCloseOnce(s: State)
    requires Reachable(s) && !s.panicked
    ensures forall k :: 0 <= k < |s.watches| ==> s.watches[k].closes <= 1
    ensures Distinct(s.active)
    ensures s.lock.Free? ==> forall k: nat :: k in s.active <==> s.Has(k) && !s.watches[k].chanClosed
    ensures Enabled(s, UpdateSend) ==> !Step(s, UpdateSend).panicked
    ensures Enabled(s, CloseNext) ==> !Step(s, CloseNext).panicked
    ensures forall k :: Enabled(s, CloseFn(k)) ==> !Step(s, CloseFn(k)).panicked
  {
    InvReachable(s);
    forall k | 0 <= k < |s.watches| ensures s.watches[k].closes <= 1 && (k in Unclosed(s) <==> !s.watches[k].chanClosed) {
      assert WatchOk(s, k);
    }
    if Enabled(s, UpdateSend) {
      UpdateSendKeeps(s);
    }
    if Enabled(s, CloseNext) {
      CloseNextKeeps(s);
    }
    forall k | Enabled(s, CloseFn(k)) ensures !Step(s, CloseFn(k)).panicked {
      CloseFnKeeps(s, k);
    }
  }

  /** The one step that can panic is Watch's own notification, and it does exactly when it
      has something to notify of and the watchable's Close has got to its channel. */
  lemma WatchSendPanicsIff(s: State, a: Action)
    requires Reachable(s) && Enabled(s, a)
    ensures Step(s, a).panicked <==>
              a.WatchSend? && s.watches[a.k].notify && s.closed && a.k !in Unclosed(s)
  {
    InvReachable(s);
    match a
    case WatchSend(k) => assert WatchOk(s, k);
    case UpdateSend => UpdateSendKeeps(s);
    case CloseNext => CloseNextKeeps(s);
    case CloseFn(k) => CloseFnKeeps(s, k);
    case _ =>
  }

  /** No Close of the watchable begins while a Watch is about to send. */
  ghost predicate ClosesBetweenWatches(s: State, run: seq<Action>)
    decreases |run|
  {
    run == [] ||
    (Enabled(s, run[0]) ==>
       && (run[0].CloseBegin? ==> NobodySending(s))
       && ClosesBetweenWatches(Step(s, run[0]), run[1..]))
  }

  ghost predicate NobodySending(s: State) {
    forall k :: 0 <= k < |s.watches| ==> !(s.watches[k].sending && s.watches[k].notify)
  }

  lemma SafeStep(s: State, a: Action)
    requires Enabled(s, a) && Inv(s) && (s.closed ==> NobodySending(s))
    requires a.CloseBegin? ==> NobodySending(s)
    ensures var s' := Step(s, a); Inv(s') && !s'.panicked && (s'.closed ==> NobodySending(s'))
  {
    InvStep(s, a);
    match a
    case WatchSend(k) => assert WatchOk(s, k);
    case UpdateSend => UpdateSendKeeps(s);
    case CloseNext => CloseNextKeeps(s);
    case CloseFn(k) => CloseFnKeeps(s, k);
    case _ =>
  }

  /** A run in which no Close of the watchable falls between Watch's unlock and its send
      does not panic. */
  lemma {:induction false} SafeRun(s: State, run: seq<Action>, s': State)
    requires Inv(s) && !s.panicked && (s.closed ==> NobodySending(s))
    requires Leads(s, run, s') && ClosesBetweenWatches(s, run)
    ensures !s'.panicked
    decreases |run|
  {
    if run != [] {
      SafeStep(s, run[0]);
      SafeRun(Step(s, run[0]), run[1..], s');
    }
  }

  lemma NoPanic(run: seq<Action>, s: State)
    requires Leads(INITIAL, run, s) && ClosesBetweenWatches(INITIAL, run)
    ensures !s.panicked
  {
    SafeRun(INITIAL, run, s);
  }

  lemma Prepended(s: State, a: Action, s1: State, run: seq<Action>, s': State)
    requires Enabled(s, a) && Step(s, a) == s1 && Leads(s1, run, s')
    ensures Leads(s, [a] + run, s')
  {
    assert ([a] + run)[1..] == run;
  }

  const OVERTAKEN: Watch := Watch(true, true, false, false, 0, NotClosed, false, false, None, 1)

  /** A value is published, and a Watch has unlocked. */
  const WINDOW: State := State(Some(1), 1, [0], false, [OVERTAKEN], Free, false)

  lemma WindowReached(run: seq<Action>, s: State)
    requires Leads(WINDOW, run, s)
    ensures Reachable(s)
  {
    var s1 := State(Some(1), 1, [], false, [], Updating(0), false);
    var s2 := s1.(lock := Free);
    Prepended(s2, WatchLocked, WINDOW, run, s);
    Prepended(s1, UpdateEnd, s2, [WatchLocked] + run, s);
    Prepended(INITIAL, UpdateBegin(Some(1)), s1, [UpdateEnd] + ([WatchLocked] + run), s);
  }

  /** The other case happens: a Watch, overtaken by Close, sends on a closed channel. */
  lemma OvertakenWatchPanics()
    ensures exists s :: Reachable(s) && s.panicked
  {
    var w' := OVERTAKEN.(chanClosed := true, closes := 1);
    var s4 := WINDOW.(closed := true, lock := ClosingAll(0));
    var s5 := s4.(watches := [w'], lock := ClosingAll(1));
    var s6 := s5.(active := [], lock := Free);
    var s7 := s6.(watches := [w'.(sending := false)], panicked := true);
    Prepended(s6, WatchSend(0), s7, [], s7);
    var run := [WatchSend(0)] + [];
    Prepended(s5, CloseEnd, s6, run, s7);
    run := [CloseEnd] + run;
    Prepended(s4, CloseNext, s5, run, s7);
    run := [CloseNext] + run;
    Prepended(WINDOW, CloseBegin, s4, run, s7);
    WindowReached([CloseBegin] + run, s7);
  }

  /** No lost wakeups: in every reachable state a watch that was not closed by its owner
      has been read at the latest version, or has a notification waiting or being handled,
      or one is still to be sent to it, or nothing was published since it was made. */
  lemma NoLostWakeups(s: State, k: nat)
    requires Reachable(s) && !s.panicked && s.Has(k) && !s.watches[k].selfClosed
    ensures Awake(s, k)
  {
    InvReachable(s);
  }

  /** Once closed, the value is final. */
  lemma {:induction false} ClosedIsFinal(s: State, run: seq<Action>, s': State)
    requires Leads(s, run, s') && s.closed && !s.lock.Updating?
    ensures s'.closed && s'.value == s.value && s'.version == s.version
    decreases |run|
  {
    if run != [] {
      ClosedIsFinal(Step(s, run[0]), run[1..], s');
    }
  }

  /** A consumer that has drained its channel until it was closed with the watchable has
      read the value that will never change again, unless there never was one. */
  lemma DrainedSawFinalValue(s: State, k: nat, run: seq<Action>, s': State)
    requires Reachable(s) && !s.panicked && s.Has(k)
    requires var w := s.watches[k];
             !w.sending && w.chanClosed && !w.selfClosed && !w.token && !w.owing
    requires Leads(s, run, s')
    ensures s'.value == s.value
    ensures s.watches[k].seen == Some(Snapshot(s'.version, s'.value)) || (s'.value.None? && s'.version == s.watches[k].birth)
  {
    InvReachable(s);
    assert WatchOk(s, k) && Awake(s, k);
    ClosedIsFinal(s, run, s');
  }

  // ---- nothing is made up --------------------------------------------------

  /** While Update or Close of the watchable holds the lock, nobody watches, updates, reads or
      closes anything under it; the loop's own steps, and those that need no lock, go on. */
  lemma LockExcludes(s: State, a: Action)
    requires Enabled(s, a) && !s.lock.Free?
    ensures a.UpdateSend? || a.UpdateEnd? || a.CloseNext? || a.CloseEnd? || a.WatchSend? || a.WatchClose? || a.Take?
  {
  }

  /** Sending on a closed channel and closing it again are what panics, and nothing else does. */
  lemma ClosedChannelPanics(s: State, k: nat, bySelf: bool)
    requires s.Has(k)
    ensures TrySend(s, k).panicked <==> s.panicked || s.watches[k].chanClosed
    ensures CloseChan(s, k, bySelf).panicked <==> s.panicked || s.watches[k].chanClosed
  {
  }

  /** How often the consumer of watch k has taken a notification. */
  ghost function Takes(run: seq<Action>, k: nat): nat {
    if run == [] then 0 else (if run[0] == Take(k) then 1 else 0) + Takes(run[1..], k)
  }

  /** The step sends to watch k. */
  ghost predicate SendsTo(s: State, a: Action, k: nat)
    requires Enabled(s, a)
  {
    (a.UpdateSend? && s.active[s.lock.next] == k) || (a == WatchSend(k) && s.watches[k].notify)
  }

  /** How often a run from s sends to watch k. */
  ghost function Sends(s: State, run: seq<Action>, k: nat): nat
    decreases |run|
  {
    if run == [] || !Enabled(s, run[0]) then 0
    else (if SendsTo(s, run[0], k) then 1 else 0) + Sends(Step(s, run[0]), run[1..], k)
  }

  ghost function InSlot(s: State, k: nat): nat {
    if s.Has(k) && s.watches[k].token then 1 else 0
  }

  lemma SlotStep(s: State, a: Action, k: nat)
    requires Enabled(s, a)
    ensures (if a == Take(k) then 1 else 0) + InSlot(Step(s, a), k) <= InSlot(s, k) + if SendsTo(s, a, k) then 1 else 0
  {
  }

  /** No spurious wakeups: what is taken, and what is still in the slot, was sent. */
  lemma {:induction false} NoSpuriousWakeups(s: State, run: seq<Action>, s': State, k: nat)
    requires Leads(s, run, s')
    ensures Takes(run, k) + InSlot(s', k) <= InSlot(s, k) + Sends(s, run, k)
    decreases |run|
  {
    if run != [] {
      SlotStep(s, run[0], k);
      NoSpuriousWakeups(Step(s, run[0]), run[1..], s', k);
    }
  }

  /** How often the consumer of watch k has read the value. */
  ghost function Reads(run: seq<Action>, k: nat): nat {
    if run == [] then 0 else (if run[0] == Read(k) then 1 else 0) + Reads(run[1..], k)
  }

  ghost function Owed(s: State, k: nat): nat {
    if s.Has(k) && s.watches[k].owing then 1 else 0
  }

  lemma OwedStep(s: State, a: Action, k: nat)
    requires Enabled(s, a)
    ensures (if a == Read(k) then 1 else 0) + Owed(Step(s, a), k) <= Owed(s, k) + if a == Take(k) then 1 else 0
  {
  }

  /** A consumer reads for a notification that it has taken, and only once for each. */
  lemma {:induction false} ReadsWhatItTook(s: State, run: seq<Action>, s': State, k: nat)
    requires Leads(s, run, s')
    ensures Reads(run, k) + Owed(s', k) <= Owed(s, k) + Takes(run, k)
    decreases |run|
  {
    if run != [] {
      OwedStep(s, run[0], k);
      ReadsWhatItTook(Step(s, run[0]), run[1..], s', k);
    }
  }

  /** What has been published: the last update before Close. */
  ghost function Published(run: seq<Action>, closed: bool, latest: Snapshot): Snapshot {
    if run == [] then latest
    else
      match run[0]
      case UpdateBegin(v) => Published(run[1..], closed, if closed then latest else Snapshot(latest.version + 1, v))
      case CloseBegin => Published(run[1..], true, latest)
      case _ => Published(run[1..], closed, latest)
  }

  /** In every run the value is the one published last, and the watchable is closed exactly when
      Close was called. */
  lemma {:induction false} ValueIsPublished(s: State, run: seq<Action>, s': State)
    requires Leads(s, run, s')
    ensures Snapshot(s'.version, s'.value) == Published(run, s.closed, Snapshot(s.version, s.value))
    ensures s'.closed <==> s.closed || CloseBegin in run
    decreases |run|
  {
    if run != [] {
      ValueIsPublished(Step(s, run[0]), run[1..], s');
      assert run == [run[0]] + run[1..];
    }
  }
}
