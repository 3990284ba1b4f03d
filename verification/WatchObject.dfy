/**
 The watchable, the watch and the watched value as objects (watch/watch.go,
 watch/value.go): the critical sections with their loops, each run without interruption.
 `WatchProtocol` and `WatchValue` interleave them.
 */
module WatchObject {
  import opened Common
  import V = WatchValue

  /** A channel with one slot. Sending on it or closing it when it is closed panics. */
  class Chan {
    var token: bool
    var closed: bool

    constructor ()
      ensures !token && !closed
    {
      token, closed := false, false;
    }

    method TrySend()
      requires !closed
      modifies this
      ensures token && !closed
    {
      token := true;
    }

    /** A receive that has something to receive. */
    method Receive()
      requires token
      modifies this
      ensures !token && closed == old(closed)
    {
      token := false;
    }

    method Close()
      requires !closed
      modifies this
      ensures closed && token == old(token)
    {
      closed := true;
    }
  }

  class Watchable {
    var value: Option<int>
    var active: seq<Chan>
    var closed: bool

    /** The active channels are different and open; a closed watchable has none. */
    ghost predicate Valid()
      reads this, active
    {
      && Distinct(active)
      && (forall c :: c in active ==> !c.closed)
      && (closed ==> active == [])
    }

    constructor ()
      ensures Valid() && value == None && active == [] && !closed
    {
      value, active, closed := None, [], false;
    }

    /** Watch as a whole, when nothing interferes before its own notification. */
    method Watch() returns (r: Option<Watch>, v: Option<int>)
      requires Valid()
      modifies this
      ensures Valid() && value == old(value) && closed == old(closed)
      ensures r.None? <==> closed
      ensures v == if closed then None else value
      ensures closed ==> active == old(active)
      ensures r.Some? ==>
                && fresh(r.value) && fresh(r.value.c) && r.value.o == this && r.value.Valid() && !r.value.closed
                && active == old(active) + [r.value.c]
                && r.value.c.token == value.Some?
    {
      if closed {
        return None, None;
      }
      var c := new Chan();
      var notify := value.Some?;
      active := active + [c];
      if notify {
        c.TrySend();
      }
      var w := new Watch(this, c);
      return Some(w), value;
    }

    /** The latest value. */
    method Get() returns (v: Option<int>)
      ensures v == value
    {
      return value;
    }

    /** Sets the value and leaves a notification in every active channel. */
    method Update(v: Option<int>) returns (ok: bool)
      requires Valid()
      modifies this`value, active
      ensures Valid() && active == old(active) && closed == old(closed)
      ensures ok == !closed
      ensures value == if ok then v else old(value)
      ensures ok ==> forall c :: c in active ==> c.token
    {
      if closed {
        return false;
      }
      value := v;
      for i := 0 to |active|
        invariant active == old(active) && !closed && value == v && Distinct(active)
        invariant forall c :: c in active ==> !c.closed
        invariant forall j :: 0 <= j < i ==> active[j].token
      {
        active[i].TrySend();
      }
      return true;
    }

    /** Closes every active channel; what is in its slot stays there. */
    method Close()
      requires Valid()
      modifies this`closed, this`active, active
      ensures Valid() && closed && active == []
      ensures forall c :: c in old(active) ==> c.closed && c.token == old(c.token)
    {
      if closed {
        return;
      }
      closed := true;
      for i := 0 to |active|
        invariant active == old(active) && closed
        invariant forall j :: 0 <= j < i ==> active[j].closed
        invariant forall j :: i <= j < |active| ==> !active[j].closed
        invariant forall c :: c in active ==> c.token == old(c.token)
      {
        active[i].Close();
      }
      active := [];
    }

    /** What a watch calls when it is closed: closes its channel and takes it off the list. */
    method CloseFunc(c: Chan)
      requires Valid() && (!closed ==> c in active)
      modifies this`active, c
      ensures Valid() && closed == old(closed)
      ensures closed ==> active == old(active) && c.closed == old(c.closed)
      ensures !closed ==> c.closed && active == Without(old(active), c)
      ensures c.token == old(c.token)
    {
      if closed {
        return;
      }
      c.Close();
      var i := 0;
      while i < |active|
        invariant 0 <= i <= |active| && active == old(active) && !closed
        invariant forall j :: 0 <= j < i ==> active[j] != c
        invariant c.closed && c.token == old(c.token)
        invariant forall d :: d in active && d != c ==> !d.closed
        invariant Distinct(active)
      {
        if active[i] == c {
          CutIsWithout(active, c, i);
          WithoutIs(active, c);
          active := active[..i] + active[i + 1..];
          return;
        }
        i := i + 1;
      }
    }
  }

  class Watch {
    const o: Watchable
    const c: Chan
    var closed: bool

    /** Until it is closed, or the watchable is, its channel is on the list. */
    ghost predicate Valid()
      reads this, o
    {
      !closed && !o.closed ==> c in o.active
    }

    constructor (o: Watchable, c: Chan)
      ensures this.o == o && this.c == c && !closed
    {
      this.o, this.c, closed := o, c, false;
    }

    method Get() returns (v: Option<int>)
      ensures v == o.value
    {
      v := o.Get();
    }

    /** However often it is called, the close function is called once. */
    method Close()
      requires Valid() && o.Valid()
      modifies this, o`active, c
      ensures Valid() && o.Valid() && closed && o.closed == old(o.closed)
      ensures old(closed) || old(o.closed) ==> o.active == old(o.active) && c.closed == old(c.closed)
      ensures !old(closed) && !old(o.closed) ==> c.closed && o.active == Without(old(o.active), c)
      ensures c.token == old(c.token)
    {
      if closed {
        return;
      }
      closed := true;
      WithoutIs(o.active, c);
      o.CloseFunc(c);
    }
  }

  // ---- the watched value ---------------------------------------------------

  class Updatable {
    var closes: nat

    constructor ()
      ensures closes == 0
    {
      closes := 0;
    }

    method Close()
      modifies this
      ensures closes == old(closes) + 1
    {
      closes := closes + 1;
    }
  }

  /** One entry for every time the process function runs. */
  function Processings(u: Updatable, outcomes: seq<V.Outcome>): seq<Updatable> {
    if outcomes == [] then []
    else Processings(u, outcomes[..|outcomes| - 1]) + if outcomes[|outcomes| - 1].Processed? then [u] else []
  }

  class Value {
    var watching: bool
    var updatable: Updatable?
    /** For which updatables the process function has run. */
    var processed: seq<Updatable>

    ghost predicate Valid()
      reads this
    {
      watching <==> updatable != null
    }

    constructor ()
      ensures Valid() && !watching && processed == []
    {
      watching, updatable, processed := false, null, [];
    }

    /** Watch with what the user's functions answer: no updatable is an error.  Returns the updatable to start a goroutine for, which happens even when
        the first update fails. */
    method Watch(created: Updatable?, first: V.Outcome) returns (started: Updatable?)
      requires Valid()
      modifies this
      ensures Valid()
      ensures old(watching) || created == null ==>
                started == null && watching == old(watching) && updatable == old(updatable) && processed == old(processed)
      ensures !old(watching) && created != null ==>
                && started == created && updatable == created && watching
                && processed == old(processed) + if first == V.Processed then [created] else []
    {
      if watching || created == null {
        return null;
      }
      watching, updatable := true, created;
      started := created;
      if first == V.Processed {
        processed := processed + [created];
      }
    }

    /** Closes the updatable that was watched, once, and forgets it. */
    method Unwatch()
      requires Valid()
      modifies this`watching, this`updatable, updatable
      ensures Valid() && !watching
      ensures old(watching) ==> old(updatable).closes == old(updatable.closes) + 1
    {
      if !watching {
        return;
      }
      updatable.Close();
      watching, updatable := false, null;
    }

    /** What the goroutine for u does with one notification, under the lock: it gives up when
        something else or nothing is being watched, however that came about. */
    method HandleUpdate(u: Updatable, outcome: V.Outcome) returns (goesOn: bool)
      requires Valid()
      modifies this`processed
      ensures Valid() && goesOn == (watching && updatable == u)
      ensures processed == old(processed) + if goesOn && outcome.Processed? then [u] else []
    {
      if !watching || updatable != u {
        return false;
      }
      if outcome.Processed? {
        processed := processed + [u];
      }
      return true;
    }

    /** The update loop of the goroutine for u, over the notifications it receives while
        nobody calls Watch or Unwatch: all of them if u is being watched, and not even the
        first if not. */
    method WatchUpdates(u: Updatable, notifications: seq<V.Outcome>) returns (handled: nat)
      requires Valid()
      modifies this`processed
      ensures Valid()
      ensures handled == if watching && updatable == u then |notifications| else 0
      ensures processed == old(processed) + Processings(u, notifications[..handled])
    {
      handled := 0;
      while handled < |notifications|
        invariant handled <= |notifications| && Valid()
        invariant !(watching && updatable == u) ==> handled == 0
        invariant processed == old(processed) + Processings(u, notifications[..handled])
      {
        assert notifications[..handled + 1][..handled] == notifications[..handled];
        var goesOn := HandleUpdate(u, notifications[handled]);
        if !goesOn {
          return;
        }
        handled := handled + 1;
      }
    }
  }
}
