/**
 The traceback ring of checked references (debugger.append in checked/debug.go).

 Events are kept in cycles; a cycle ends with a finalize event, and at most
 `tracebackCycles` cycles are kept.  When the last one ends, the entries of the oldest go
 back to a pool, and its backing array is used again for the newest cycle.
 */
module TracebackRing {
  import opened Common

  datatype Event =
    | IncRef | DecRef | MoveRef | FinalizeEvent | IncReads | DecReads | IncWrites | DecWrites

  datatype Record = Record(event: Event, ref: int)

  // ---- the log cut into cycles ---------------------------------------------

  /** The cycles of a log: each but the last ends with a finalize event. */
  ghost function Cycles(log: seq<Record>): (cs: seq<seq<Record>>)
    ensures cs != []
  {
    if log == [] then [[]]
    else
      var before, r := Cycles(log[..|log| - 1]), log[|log| - 1];
      var grown := Grown(before, r);
      if r.event.FinalizeEvent? then grown + [[]] else grown
  }

  ghost function Finalizes(log: seq<Record>): nat {
    if log == [] then 0 else Finalizes(log[..|log| - 1]) + if log[|log| - 1].event.FinalizeEvent? then 1 else 0
  }

  ghost function Flatten(cs: seq<seq<Record>>): seq<Record> {
    if cs == [] then [] else Flatten(cs[..|cs| - 1]) + cs[|cs| - 1]
  }

  /** The place just after finalize number m, or the beginning. */
  ghost function After(log: seq<Record>, m: nat): (i: nat)
    requires m <= Finalizes(log)
    ensures i <= |log|
  {
    if m == 0 || log == [] then 0
    else if log[|log| - 1].event.FinalizeEvent? && Finalizes(log) == m then |log|
    else After(log[..|log| - 1], m)
  }

  /** What a ring of n cycles should hold: nothing before the first event, and then the
      last n cycles of the log. */
  ghost function Ring(log: seq<Record>, n: nat): seq<seq<Record>> {
    if log == [] then [] else Last(Cycles(log), n)
  }

  ghost function Last(cs: seq<seq<Record>>, n: nat): seq<seq<Record>> {
    if |cs| <= n then cs else cs[|cs| - n..]
  }

  lemma {:induction false} CycleCount(log: seq<Record>)
    ensures |Cycles(log)| == Finalizes(log) + 1
  {
    if log != [] {
      CycleCount(log[..|log| - 1]);
    }
  }

  lemma FlattenEmpty()
    ensures Flatten([[]]) == []
  {
    var cs: seq<seq<Record>> := [[]];
    assert cs[..0] == [];
    assert Flatten(cs) == [] + [];
  }

  ghost function Grown<T>(cs: seq<seq<T>>, r: T): seq<seq<T>>
    requires cs != []
  {
    cs[|cs| - 1 := cs[|cs| - 1] + [r]]
  }

  lemma FlattenGrown(cs: seq<seq<Record>>, r: Record)
    requires cs != []
    ensures Flatten(Grown(cs, r)) == Flatten(cs) + [r]
  {
    var n := |cs| - 1;
    assert Grown(cs, r)[..n] == cs[..n];
    assert Flatten(cs[..n]) + (cs[n] + [r]) == Flatten(cs[..n]) + cs[n] + [r];
  }

  lemma FlattenPushed(cs: seq<seq<Record>>)
    ensures Flatten(cs + [[]]) == Flatten(cs)
  {
    assert (cs + [[]])[..|cs|] == cs;
    assert Flatten(cs) + [] == Flatten(cs);
  }

  lemma FlattenTail(before: seq<seq<Record>>, m: nat, r: Record)
    requires m < |before|
    ensures Flatten(Grown(before, r)[m..]) == Flatten(before[m..]) + [r]
    ensures Flatten((Grown(before, r) + [[]])[m..]) == Flatten(before[m..]) + [r]
  {
    assert Grown(before, r)[m..] == Grown(before[m..], r);
    FlattenGrown(before[m..], r);
    assert (Grown(before, r) + [[]])[m..] == Grown(before, r)[m..] + [[]];
    FlattenPushed(Grown(before, r)[m..]);
  }

  lemma SuffixGrown(front: seq<Record>, i: nat, r: Record)
    requires i <= |front|
    ensures (front + [r])[i..] == front[i..] + [r]
  {
  }

  /** From cycle m on the cycles hold exactly the log after finalize number m. */
  lemma {:induction false} CyclesFrom(log: seq<Record>, m: nat)
    requires m <= Finalizes(log)
    ensures m < |Cycles(log)| && Flatten(Cycles(log)[m..]) == log[After(log, m)..]
  {
    CycleCount(log);
    if log == [] {
      assert Cycles(log)[m..] == [[]];
      FlattenEmpty();
    } else {
      var front, r := log[..|log| - 1], log[|log| - 1];
      CycleCount(front);
      var before := Cycles(front);
      if m == |before| {
        assert Cycles(log)[m..] == [[]];
        FlattenEmpty();
        assert log[|log|..] == [];
      } else {
        CyclesFrom(front, m);
        assert log == front + [r];
        CyclesFromGrown(front, m, r);
      }
    }
  }

  /** An event goes to the end of the last cycle, and so to the end of all of them. */
  lemma CyclesFromGrown(front: seq<Record>, m: nat, r: Record)
    requires m <= Finalizes(front) && m < |Cycles(front)| && Flatten(Cycles(front)[m..]) == front[After(front, m)..]
    ensures var log := front + [r];
            m <= Finalizes(log) && m < |Cycles(log)| && Flatten(Cycles(log)[m..]) == log[After(log, m)..]
  {
    var log := front + [r];
    assert log[..|log| - 1] == front;
    FlattenTail(Cycles(front), m, r);
    assert After(log, m) == After(front, m);
    SuffixGrown(front, After(front, m), r);
  }

  /** The ring holds exactly what was logged after finalize number F - (n - 1), or all of it. */
  lemma RingIsSuffix(log: seq<Record>, n: nat)
    requires n >= 1
    ensures var f := Finalizes(log);
            Flatten(Ring(log, n)) == log[After(log, if f <= n - 1 then 0 else f - (n - 1))..]
  {
    var f := Finalizes(log);
    CycleCount(log);
    var m := if f <= n - 1 then 0 else f - (n - 1);
    CyclesFrom(log, m);
    if log != [] {
      assert Ring(log, n) == Cycles(log)[m..];
    }
  }

  /** The place after finalize number m is just behind a finalize event, with m of them before. */
  lemma {:induction false} AfterMeans(log: seq<Record>, m: nat)
    requires m <= Finalizes(log)
    ensures var i := After(log, m);
            Finalizes(log[..i]) == m && (if m == 0 then i == 0 else i > 0 && log[i - 1].event.FinalizeEvent?)
  {
    if m > 0 {
      var front := log[..|log| - 1];
      if log[|log| - 1].event.FinalizeEvent? && Finalizes(log) == m {
        assert log[..|log|] == log;
      } else {
        AfterMeans(front, m);
        assert front[..After(front, m)] == log[..After(front, m)];
      }
    }
  }

  lemma {:induction false} FlattenHead(cs: seq<seq<Record>>)
    requires cs != []
    ensures Flatten(cs) == cs[0] + Flatten(cs[1..])
  {
    var front, last := cs[..|cs| - 1], cs[|cs| - 1];
    if front != [] {
      FlattenHead(front);
      assert cs[1..][..|cs| - 2] == front[1..];
      Reassociate(cs[0], Flatten(front[1..]), last);
    } else {
      assert cs[1..] == [] && Flatten(cs) == [] + last;
    }
  }

  /** Cycle m is what was logged between finalize number m and the next one, which ends it. */
  lemma CycleIs(log: seq<Record>, m: nat)
    requires m <= Finalizes(log)
    ensures m < |Cycles(log)| && After(log, m) <= EndOf(log, m) && Cycles(log)[m] == log[After(log, m)..EndOf(log, m)]
  {
    CycleCount(log);
    CyclesFrom(log, m);
    var cs, i, e := Cycles(log), After(log, m), EndOf(log, m);
    FlattenHead(cs[m..]);
    assert cs[m..][0] == cs[m] && cs[m..][1..] == cs[m + 1..];
    assert Flatten(cs[m + 1..]) == log[e..] by {
      if m < Finalizes(log) {
        CyclesFrom(log, m + 1);
      } else {
        assert cs[m + 1..] == [] && log[|log|..] == [];
      }
    }
    SamePrefix(log[i..], cs[m], log[e..]);
    assert |log| - i == |cs[m]| + (|log| - e);
    assert log[i..][..e - i] == log[i..e];
  }

  ghost function EndOf(log: seq<Record>, m: nat): (e: nat)
    requires m <= Finalizes(log)
    ensures e <= |log|
  {
    if m < Finalizes(log) then After(log, m + 1) else |log|
  }

  lemma SamePrefix<T>(s: seq<T>, a: seq<T>, b: seq<T>)
    requires s == a + b
    ensures |a| <= |s| && a == s[..|a|] && |s| == |a| + |b|
  {
  }

  lemma RingLength(log: seq<Record>, n: nat)
    requires n >= 1 && log != []
    ensures |Ring(log, n)| == if Finalizes(log) < n then Finalizes(log) + 1 else n
  {
    CycleCount(log);
  }

  lemma LastAt(cs: seq<seq<Record>>, n: nat, m: nat)
    requires n >= 1 && m < |cs| <= m + n
    ensures var l := Last(cs, n); |cs| - |l| <= m && l[m - (|cs| - |l|)] == cs[m]
  {
  }

  /** So a ring of n holds the last cycles of the log, n of them or all: each is what was logged
      between two finalize events. */
  lemma RingCycles(log: seq<Record>, n: nat, m: nat)
    requires n >= 1 && log != [] && m <= Finalizes(log) < m + n
    ensures var j := m + |Ring(log, n)| - 1 - Finalizes(log);
            && 0 <= j < |Ring(log, n)| && After(log, m) <= EndOf(log, m)
            && Ring(log, n)[j] == log[After(log, m)..EndOf(log, m)]
  {
    CycleCount(log);
    LastAt(Cycles(log), n, m);
    CycleIs(log, m);
  }

  /** One event more: it goes to the last cycle; a finalize event opens a new cycle, for
      which the oldest makes room when there are n already. */
  ghost function Pushed(ring: seq<seq<Record>>, n: nat, r: Record): seq<seq<Record>> {
    var base := if ring == [] then [[]] else ring;
    var grown := Grown(base, r);
    if !r.event.FinalizeEvent? then grown
    else if |grown| == n then grown[1..] + [[]]
    else grown + [[]]
  }

  /** The first event finds one empty cycle. */
  lemma PushedBase(ring: seq<seq<Record>>, n: nat, r: Record)
    ensures Pushed(if ring == [] then [[]] else ring, n, r) == Pushed(ring, n, r)
  {
  }

  lemma LastGrown(cs: seq<seq<Record>>, n: nat, r: Record)
    requires n >= 1 && cs != []
    ensures Last(cs, n) != [] && Last(Grown(cs, r), n) == Grown(Last(cs, n), r)
  {
    if |cs| > n {
      var d := |cs| - n;
      assert Grown(cs, r)[d..] == Grown(cs[d..], r);
    }
  }

  lemma LastPushed(cs: seq<seq<Record>>, n: nat)
    requires n >= 1 && cs != []
    ensures var l := Last(cs, n);
            Last(cs + [[]], n) == if |l| == n then l[1..] + [[]] else l + [[]]
  {
    if |cs| >= n {
      var d := |cs| - n;
      assert Last(cs, n) == cs[d..];
      assert (cs + [[]])[d + 1..] == cs[d..][1..] + [[]];
    }
  }

  lemma RingPushed(log: seq<Record>, n: nat, r: Record)
    requires n >= 1
    ensures Ring(log + [r], n) == Pushed(Ring(log, n), n, r)
    ensures |Ring(log, n)| <= n
  {
    var log' := log + [r];
    assert log'[..|log'| - 1] == log;
    var before := Cycles(log);
    assert Last(before, n) == if log == [] then [[]] else Ring(log, n);
    LastGrown(before, n, r);
    LastPushed(Grown(before, r), n);
  }

  // ---- the ring ------------------------------------------------------------

  class Entry {
    var record: Record

    constructor ()
    {
      record := Record(IncRef, 0);
    }
  }

  /** A pool may hand out any of its entries, or a new one. */
  class EntryPool {
    var free: set<Entry>

    constructor ()
      ensures free == {}
    {
      free := {};
    }

    method Get() returns (e: Entry)
      modifies this
      ensures e in old(free) || fresh(e)
      ensures free == old(free) - {e}
    {
      if * {
        e := new Entry();
        assert e !in free;
      } else if free == {} {
        e := new Entry();
      } else {
        e :| e in free;
        free := free - {e};
      }
    }

    method Put(e: Entry)
      modifies this
      ensures free == old(free) + {e}
    {
      free := free + {e};
    }
  }

  /** A Go slice that begins where its array begins. */
  datatype Slice = Nil | Slice(arr: array<Entry?>, len: nat) {

    ghost predicate Backs(held: seq<Entry>)
      reads if Slice? then {arr} else {}
    {
      match this
      case Nil => held == []
      case Slice(arr, len) =>
        len == |held| <= arr.Length && forall j :: 0 <= j < len ==> arr[j] == held[j]
    }

    /** append: in place when there is room, into a new array otherwise. */
    method Append(e: Entry, ghost held: seq<Entry>) returns (r: Slice)
      requires Backs(held)
      modifies if Slice? then {arr} else {}
      ensures r.Slice? && r.Backs(held + [e])
      ensures fresh(r.arr) || (Slice? && r.arr == arr)
    {
      var n := if Slice? then len else 0;
      if Slice? && len < arr.Length {
        arr[len] := e;
        return Slice(arr, n + 1);
      }
      var grown := new Entry?[2 * n + 1](_ => null);
      for i := 0 to n
        invariant Backs(held) && forall j :: 0 <= j < i ==> grown[j] == held[j]
      {
        grown[i] := arr[i];
      }
      grown[n] := e;
      return Slice(grown, n + 1);
    }
  }

  ghost function Elements(es: seq<Entry>): set<Entry> {
    set j | 0 <= j < |es| :: es[j]
  }

  /** Puts every entry of a cycle back and clears the array. */
  method Recycle(s: Slice, pool: EntryPool, ghost held: seq<Entry>)
    requires s.Backs(held)
    modifies pool, if s.Slice? then {s.arr} else {}
    ensures pool.free == old(pool.free) + Elements(held)
    ensures s.Slice? ==> forall j :: 0 <= j < s.len ==> s.arr[j] == null
  {
    if s.Slice? {
      for i := 0 to s.len
        invariant pool.free == old(pool.free) + Elements(held[..i])
        invariant forall j :: 0 <= j < i ==> s.arr[j] == null
        invariant forall j :: i <= j < s.len ==> s.arr[j] == held[j]
      {
        var entry := s.arr[i];
        assert Elements(held[..i + 1]) == Elements(held[..i]) + {held[i]} by {
          assert held[..i + 1] == held[..i] + [held[i]];
          assert (held[..i] + [held[i]])[i] == held[i];
          assert forall j :: 0 <= j < i ==> held[..i + 1][j] == held[..i][j];
        }
        pool.Put(entry);
        s.arr[i] := null;
      }
      assert held[..s.len] == held;
    }
  }

  ghost function AllHeld(held: seq<seq<Entry>>): set<Entry> {
    set i, j | 0 <= i < |held| && 0 <= j < |held[i]| :: held[i][j]
  }

  lemma HeldOnceAppend(held: seq<seq<Entry>>, e: Entry)
    requires held != [] && Once(held) && e !in AllHeld(held)
    ensures Once(Grown(held, e)) && AllHeld(Grown(held, e)) == AllHeld(held) + {e}
  {
    var n, held' := |held| - 1, Grown(held, e);
    assert Once(held') by {
      forall i, p | 0 <= i < |held| && 0 <= p < |held[i]| ensures held[i][p] != e {
        assert held[i][p] in AllHeld(held);
      }
      OnceAdd(held, n, e);
    }
    assert held'[n][|held[n]|] == e;
    forall x | x in AllHeld(held') ensures x in AllHeld(held) + {e} {
      var i, p :| 0 <= i < |held'| && 0 <= p < |held'[i]| && held'[i][p] == x;
      assert p < |held[i]| ==> held[i][p] == x;
    }
    forall x | x in AllHeld(held) ensures x in AllHeld(held') {
      var i, p :| 0 <= i < |held| && 0 <= p < |held[i]| && held[i][p] == x;
      assert held'[i][p] == x;
    }
  }

  lemma HeldOnceShift(held: seq<seq<Entry>>)
    requires held != [] && Once(held)
    ensures var held' := held[1..] + [[]];
            Once(held') && AllHeld(held') == AllHeld(held) - Elements(held[0])
  {
    var held' := held[1..] + [[]];
    forall i, p | 0 <= i < |held'| && 0 <= p < |held'[i]| ensures i + 1 < |held| && held'[i][p] == held[i + 1][p] {
    }
    forall x | x in AllHeld(held') ensures x in AllHeld(held) - Elements(held[0]) {
      var i, p :| 0 <= i < |held'| && 0 <= p < |held'[i]| && held'[i][p] == x;
      assert held[i + 1][p] == x;
    }
    forall x | x in AllHeld(held) - Elements(held[0]) ensures x in AllHeld(held') {
      var i, p :| 0 <= i < |held| && 0 <= p < |held[i]| && held[i][p] == x;
      assert i > 0;
      assert held'[i - 1][p] == x;
    }
  }

  lemma HeldOnceOpen(held: seq<seq<Entry>>)
    requires Once(held)
    ensures Once(held + [[]]) && AllHeld(held + [[]]) == AllHeld(held)
  {
    var held' := held + [[]];
    forall x | x in AllHeld(held) ensures x in AllHeld(held') {
      var i, p :| 0 <= i < |held| && 0 <= p < |held[i]| && held[i][p] == x;
      assert held'[i][p] == x;
    }
  }

  /** The records of the entries are those of the ring. */
  ghost predicate Records(held: seq<seq<Entry>>, ring: seq<seq<Record>>)
    reads AllHeld(held)
  {
    && |held| == |ring|
    && (forall i :: 0 <= i < |held| ==> |held[i]| == |ring[i]|)
    && (forall i, p :: 0 <= i < |held| && 0 <= p < |held[i]| ==> held[i][p].record == ring[i][p])
  }

  lemma RecordsGrown(held: seq<seq<Entry>>, ring: seq<seq<Record>>, e: Entry)
    requires held != [] && Records(held, ring)
    ensures Records(Grown(held, e), Grown(ring, e.record))
  {
  }

  lemma RecordsMoved(held: seq<seq<Entry>>, ring: seq<seq<Record>>)
    requires Records(held, ring)
    ensures Records(held + [[]], ring + [[]])
    ensures held != [] ==> Records(held[1..] + [[]], ring[1..] + [[]])
  {
  }

  class Debugger {
    const cycles: nat
    const pool: EntryPool
    var entries: seq<Slice>
    /** What the slices hold. */
    ghost var held: seq<seq<Entry>>

    ghost function Arrays(): set<array<Entry?>>
      reads this`entries
    {
      set i | 0 <= i < |entries| && entries[i].Slice? :: entries[i].arr
    }

    ghost function HeldEntries(): set<Entry>
      reads this`held
    {
      AllHeld(held)
    }

    /** The entries in use and those to be used again. */
    ghost function Known(): set<Entry>
      reads this`held, pool
    {
      HeldEntries() + pool.free
    }

    /** The slices hold what they should, each in an array of its own. */
    ghost predicate Stored()
      reads this`entries, this`held, Arrays()
    {
      && |held| == |entries|
      && (forall i :: 0 <= i < |entries| ==> entries[i].Backs(held[i]))
      && (forall i, j :: 0 <= i < j < |entries| && entries[i].Slice? && entries[j].Slice? ==> entries[i].arr != entries[j].arr)
    }

    /** No entry is held twice, and none that is held is in the pool. */
    ghost predicate Separate()
      reads this`held, pool
    {
      Once(held) && HeldEntries() !! pool.free
    }

    /** The ring holds these cycles, and no more than the outer slice was allocated for. */
    ghost predicate Holds(ring: seq<seq<Record>>)
      reads this`entries, this`held, pool, Arrays(), HeldEntries()
    {
      1 <= cycles && |ring| <= cycles && Stored() && Separate() && Records(held, ring)
    }

    constructor (cycles: nat, pool: EntryPool)
      requires cycles >= 1
      ensures this.cycles == cycles && this.pool == pool
      ensures entries == [] && held == []
    {
      this.cycles, this.pool := cycles, pool;
      entries, held := [], [];
    }

    /** The last cycle takes an entry. */
    method AppendLast(e: Entry)
      requires entries != [] && Stored()
      modifies this`entries, this`held, Arrays()
      ensures |entries| == |old(entries)| && Stored() && held == Grown(old(held), e)
      ensures fresh(Arrays() - old(Arrays()))
    {
      var idx := |entries| - 1;
      var s := entries[idx].Append(e, held[idx]);
      entries := entries[idx := s];
      held := Grown(held, e);
    }

    /** Shifts the cycles back by one; the array of the oldest serves the new one. */
    method Shift()
      requires entries != [] && Stored()
      modifies this`entries, this`held, pool, Arrays()
      ensures Stored() && held == old(held)[1..] + [[]]
      ensures pool.free == old(pool.free) + Elements(old(held)[0])
      ensures Arrays() <= old(Arrays())
    {
      var slice := entries[0];
      Recycle(slice, pool, held[0]);
      var reused := if slice.Slice? then Slice(slice.arr, 0) else Nil;
      entries := entries[1..] + [reused];
      held := held[1..] + [[]];
    }

    /** Writes an event into an entry from the pool. */
    method TakeEntry(r: Record, ghost ring: seq<seq<Record>>) returns (entry: Entry)
      requires Holds(ring)
      modifies pool, pool.free
      ensures Holds(ring)
      ensures entry !in HeldEntries() && entry !in pool.free && entry.record == r
      ensures pool.free == old(pool.free) - {entry} && (entry in old(pool.free) || fresh(entry))
    {
      entry := pool.Get();
      entry.record := r;
    }

    /** Writes an event at the end of the last cycle. */
    method Add(r: Record, ghost ring: seq<seq<Record>>)
      requires entries != [] && Holds(ring)
      modifies this`entries, this`held, pool, pool.free, Arrays()
      ensures |entries| == |old(entries)| && Holds(Grown(ring, r))
      ensures fresh(Arrays() - old(Arrays())) && fresh(Known() - old(Known()))
    {
      var entry := TakeEntry(r, ring);
      AddTaken(entry, ring);
    }

    /** An entry that nobody has goes to the end of the last cycle. */
    method AddTaken(entry: Entry, ghost ring: seq<seq<Record>>)
      requires entries != [] && Holds(ring) && entry !in HeldEntries() && entry !in pool.free
      modifies this`entries, this`held, Arrays()
      ensures |entries| == |old(entries)| && Holds(Grown(ring, entry.record))
      ensures fresh(Arrays() - old(Arrays())) && HeldEntries() == old(HeldEntries()) + {entry}
    {
      HeldOnceAppend(held, entry);
      RecordsGrown(held, ring, entry);
      AppendLast(entry);
    }

    /** After a finalize event: a new cycle, for which the oldest makes room. */
    method NextCycle(ghost ring: seq<seq<Record>>)
      requires entries != [] && Holds(ring)
      modifies this`entries, this`held, pool, Arrays()
      ensures Holds(if |ring| == cycles then ring[1..] + [[]] else ring + [[]])
      ensures fresh(Arrays() - old(Arrays())) && Known() == old(Known())
    {
      RecordsMoved(held, ring);
      if |entries| == cycles {
        HeldOnceShift(held);
        Shift();
      } else {
        HeldOnceOpen(held);
        assert |entries| + 1 <= cycles;
        entries := entries + [Nil];
        held := held + [[]];
      }
    }

    /** append, without the first allocation. */
    method Push(r: Record, ghost ring: seq<seq<Record>>)
      requires entries != [] && Holds(ring)
      modifies this`entries, this`held, pool, pool.free, Arrays()
      ensures Holds(Pushed(ring, cycles, r))
      ensures fresh(Arrays() - old(Arrays())) && fresh(Known() - old(Known()))
    {
      Add(r, ring);
      if r.event.FinalizeEvent? {
        NextCycle(Grown(ring, r));
      }
    }

    /** The first event allocates the first cycle. */
    method Begin(ghost ring: seq<seq<Record>>) returns (ghost base: seq<seq<Record>>)
      requires Holds(ring)
      modifies this`entries, this`held
      ensures entries != [] && Holds(base)
      ensures base == if ring == [] then [[]] else ring
      ensures Arrays() == old(Arrays()) && Known() == old(Known())
    {
      base := ring;
      if |entries| == 0 {
        entries, held, base := [Nil], [[]], [[]];
      }
    }

    /** One event more; `RingPushed` says what that makes of the ring of a log. */
    method Append(event: Event, ref: int, ghost ring: seq<seq<Record>>)
      requires Holds(ring)
      modifies this, pool, pool.free, Arrays()
      ensures Holds(Pushed(ring, cycles, Record(event, ref)))
      ensures fresh(Arrays() - old(Arrays())) && fresh(Known() - old(Known()))
    {
      ghost var arrays, known := Arrays(), Known();
      ghost var base := Begin(ring);
      assert Arrays() == arrays && Known() == known;
      PushedBase(ring, cycles, Record(event, ref));
      Push(Record(event, ref), base);
    }
  }

  // ---- several references, one pool ----------------------------------------

  /** Two debuggers that share no entry and no array. */
  ghost predicate Apart(d: Debugger, other: Debugger)
    reads d, other
  {
    d != other && d.HeldEntries() !! other.HeldEntries() && d.Arrays() !! other.Arrays()
  }

  /** Debuggers on one pool, each with its ring; the world holds all their arrays and entries,
      and those of the pool. */
  ghost predicate Together(ds: seq<Debugger>, pool: EntryPool, rings: seq<seq<seq<Record>>>, world: set<object>)
    reads ds, pool, world
  {
    && |ds| == |rings| && pool.free <= world
    && (forall i :: 0 <= i < |ds| ==> Lives(ds[i], pool, rings[i], world))
    && (forall i, j :: 0 <= i < |ds| && 0 <= j < |ds| && i != j ==> Apart(ds[i], ds[j]))
  }

  ghost predicate Lives(d: Debugger, pool: EntryPool, ring: seq<seq<Record>>, world: set<object>)
    reads d, pool, world
  {
    d.pool == pool && d.Arrays() <= world && d.HeldEntries() <= world && d.Holds(ring)
  }

  method AppendWithin(d: Debugger, pool: EntryPool, event: Event, ref: int,
                      ghost ring: seq<seq<Record>>, ghost world: set<object>)
      returns (ghost world': set<object>)
    requires Lives(d, pool, ring, world) && pool.free <= world
    modifies d, pool, pool.free, d.Arrays()
    ensures Lives(d, pool, Pushed(ring, d.cycles, Record(event, ref)), world') && pool.free <= world'
    ensures world <= world' && fresh(world' - world)
    ensures fresh(d.Arrays() - old(d.Arrays())) && fresh(d.Known() - old(d.Known()))
  {
    d.Append(event, ref, ring);
    world' := world + d.Arrays() + d.Known();
  }

  /** An event on any of them changes its ring only. */
  method AppendAmong(ds: seq<Debugger>, pool: EntryPool, k: nat, event: Event, ref: int,
                     ghost rings: seq<seq<seq<Record>>>, ghost world: set<object>)
      returns (ghost world': set<object>)
    requires Together(ds, pool, rings, world) && k < |ds|
    modifies ds[k], pool, world
    ensures Together(ds, pool, rings[k := Pushed(rings[k], ds[k].cycles, Record(event, ref))], world')
    ensures fresh(world' - world)
  {
    var d := ds[k];
    assert Lives(d, pool, rings[k], world);
    world' := AppendWithin(d, pool, event, ref, rings[k], world);
    ghost var rings' := rings[k := Pushed(rings[k], d.cycles, Record(event, ref))];
    forall j | 0 <= j < |ds| && j != k ensures Lives(ds[j], pool, rings'[j], world') {
      assert old(Apart(d, ds[j]) && Lives(ds[j], pool, rings[j], world));
    }
    forall j | 0 <= j < |ds| && j != k ensures Apart(d, ds[j]) && Apart(ds[j], d) {
      assert old(Apart(d, ds[j]) && Lives(ds[j], pool, rings[j], world));
    }
    forall i, j | 0 <= i < |ds| && 0 <= j < |ds| && i != j ensures Apart(ds[i], ds[j]) {
      if i != k && j != k {
        assert old(Apart(ds[i], ds[j]));
      }
    }
  }

  /** The events on reference i. */
  function On(events: seq<(nat, Record)>, i: nat): seq<Record> {
    if events == [] then []
    else
      var (k, r) := events[|events| - 1];
      On(events[..|events| - 1], i) + if k == i then [r] else []
  }

  /** The rings built up event by event. */
  ghost function Rings(events: seq<(nat, Record)>, n: nat, cycles: nat): seq<seq<seq<Record>>> {
    seq(n, i requires 0 <= i < n => PushedAll(On(events, i), cycles))
  }

  lemma OnSnoc(events: seq<(nat, Record)>, k: nat, r: Record, i: nat)
    ensures On(events + [(k, r)], i) == On(events, i) + if k == i then [r] else []
  {
    assert (events + [(k, r)])[..|events|] == events;
  }

  lemma PushedAllSnoc(log: seq<Record>, r: Record, cycles: nat)
    ensures PushedAll(log + [r], cycles) == Pushed(PushedAll(log, cycles), cycles, r)
  {
    assert (log + [r])[..|log|] == log;
  }

  lemma RingsSnoc(events: seq<(nat, Record)>, k: nat, r: Record, n: nat, cycles: nat)
    requires k < n
    ensures var before := Rings(events, n, cycles);
            Rings(events + [(k, r)], n, cycles) == before[k := Pushed(before[k], cycles, r)]
  {
    var before, after := Rings(events, n, cycles), Rings(events + [(k, r)], n, cycles);
    forall i | 0 <= i < n ensures after[i] == before[k := Pushed(before[k], cycles, r)][i] {
      OnSnoc(events, k, r, i);
      PushedAllSnoc(On(events, i), r, cycles);
      assert On(events, i) + [] == On(events, i);
    }
  }

  /** References without events yet. */
  method NewDebuggers(n: nat, cycles: nat) returns (ds: seq<Debugger>, pool: EntryPool)
    requires cycles >= 1
    ensures |ds| == n && fresh(pool) && fresh(ds) && forall i :: 0 <= i < n ==> ds[i].cycles == cycles
    ensures Together(ds, pool, Rings([], n, cycles), {})
  {
    pool := new EntryPool();
    ds := [];
    for m := 0 to n
      invariant |ds| == m && fresh(pool) && fresh(ds) && pool.free == {} && Distinct(ds)
      invariant forall i :: 0 <= i < m ==> ds[i].cycles == cycles && ds[i].pool == pool && ds[i].entries == [] && ds[i].held == []
    {
      var d := new Debugger(cycles, pool);
      ds := ds + [d];
    }
    forall i | 0 <= i < n ensures Lives(ds[i], pool, [], {}) {
    }
  }

  /** The events on references that share a pool, one after the other. */
  method RecordAll(ds: seq<Debugger>, pool: EntryPool, events: seq<(nat, Record)>, cycles: nat,
                ghost before: seq<(nat, Record)>, ghost world: set<object>)
      returns (ghost world': set<object>)
    requires forall m :: 0 <= m < |events| ==> events[m].0 < |ds|
    requires forall i :: 0 <= i < |ds| ==> ds[i].cycles == cycles
    requires Together(ds, pool, Rings(before, |ds|, cycles), world)
    modifies ds, pool, world
    ensures Together(ds, pool, Rings(before + events, |ds|, cycles), world')
    decreases |events|
  {
    if events == [] {
      assert before + [] == before;
      return world;
    }
    var (k, r) := events[0];
    RingsSnoc(before, k, r, |ds|, cycles);
    world' := AppendAmong(ds, pool, k, r.event, r.ref, Rings(before, |ds|, cycles), world);
    world' := RecordAll(ds, pool, events[1..], cycles, before + [(k, r)], world');
    HeadAndTail(before, events);
  }

  /** After any events on any number of references that share the pool of entries, each ring
      holds the last cycles of its own log, and by `RingIsSuffix` exactly what happened after
      the last finalize event that it has forgotten. */
  method Replay(events: seq<(nat, Record)>, n: nat, cycles: nat) returns (ds: seq<Debugger>)
    requires cycles >= 1 && forall m :: 0 <= m < |events| ==> events[m].0 < n
    ensures |ds| == n && fresh(ds)
    ensures forall i :: 0 <= i < n ==> ds[i].cycles == cycles && ds[i].Holds(Ring(On(events, i), cycles))
    ensures forall i, j :: 0 <= i < n && 0 <= j < n && i != j ==> ds[i].pool == ds[j].pool && Apart(ds[i], ds[j])
  {
    var pool;
    ds, pool := NewDebuggers(n, cycles);
    ghost var world := RecordAll(ds, pool, events, cycles, [], {});
    assert [] + events == events;
    forall i | 0 <= i < n ensures Lives(ds[i], pool, Ring(On(events, i), cycles), world) {
      PushedAllIsRing(On(events, i), cycles);
      assert Lives(ds[i], pool, Rings(events, n, cycles)[i], world);
    }
  }

  /** The ring built up event by event. */
  ghost function PushedAll(events: seq<Record>, n: nat): seq<seq<Record>> {
    if events == [] then [] else Pushed(PushedAll(events[..|events| - 1], n), n, events[|events| - 1])
  }

  lemma {:induction false} PushedAllIsRing(events: seq<Record>, n: nat)
    requires n >= 1
    ensures PushedAll(events, n) == Ring(events, n)
  {
    if events != [] {
      var front, r := events[..|events| - 1], events[|events| - 1];
      PushedAllIsRing(front, n);
      RingPushed(front, n, r);
      assert events == front + [r];
    }
  }
}
