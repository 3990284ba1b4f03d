/**
 The generic hash map of generics/hashmap: a Go map from 64-bit hashes to entries,
 with linear probing over the hash value itself.  The probe is a uint64 increment,
 so it wraps from 2^64 - 1 to 0.

 The first half gives the table operations as functions of the table, states the
 probe invariant, and proves what Set and Delete do to it.  The class at the end is
 the imperative map, whose methods are proved equal to those functions.
 */
module HashMap {
  import opened Common

  const SLOTS: int := 0x1_0000_0000_0000_0000

  type MapHash = h: int | 0 <= h < SLOTS

  /** The functions a map is created with.  `hasFinalize` says whether the optional
      finalize function was given. */
  datatype KeyOps<!K> = KeyOps(hash: K -> MapHash, equals: (K, K) -> bool, copy: K -> K, hasFinalize: bool)

  datatype Entry<K, V> = Entry(key: K, finalize: bool, value: V)

  type Table<K, V> = map<MapHash, Entry<K, V>>

  /** What the map asks of its key functions. */
  ghost predicate Lawful<K(!new)>(ops: KeyOps<K>) {
    && (forall a :: ops.equals(a, a))
    && (forall a, b :: ops.equals(a, b) ==> ops.equals(b, a))
    && (forall a, b, c :: ops.equals(a, b) && ops.equals(b, c) ==> ops.equals(a, c))
    && (forall a, b :: ops.equals(a, b) ==> ops.hash(a) == ops.hash(b))
    && (forall a :: ops.equals(ops.copy(a), a))
  }

  // ---- cyclic probing ------------------------------------------------------

  /** hash++ on a uint64. */
  function Next(h: MapHash): MapHash {
    if h == SLOTS - 1 then 0 else h + 1
  }

  /** The slot reached from h after i increments. */
  function Slot(h: MapHash, i: nat): MapHash
    requires i < SLOTS
  {
    if h + i < SLOTS then h + i else h + i - SLOTS
  }

  /** The number of increments that lead from h to s. */
  function Dist(h: MapHash, s: MapHash): (d: nat)
    ensures d < SLOTS && Slot(h, d) == s
  {
    if h <= s then s - h else s - h + SLOTS
  }

  /** All of this is arithmetic modulo 2^64. */
  lemma ProbeArithmetic(h: MapHash, i: nat, s: MapHash)
    requires i < SLOTS
    ensures Next(h) == (h + 1) % SLOTS && Slot(h, i) == (h + i) % SLOTS && Dist(h, s) == (s - h) % SLOTS
  {
  }

  lemma HashesAreUint64()
    ensures SLOTS == Pow2(64)
  {
    Powers();
  }

  /** x comes strictly before s when probing from h. */
  predicate OnPath(h: MapHash, s: MapHash, x: MapHash) {
    Dist(h, x) < Dist(h, s)
  }

  /** Probing for k stops in slot s: it is free, or holds an equal key. */
  predicate Stops<K, V>(ops: KeyOps<K>, t: Table<K, V>, k: K, s: MapHash) {
    s !in t || ops.equals(t[s].key, k)
  }

  /** How many increments the probe for k makes, having made i already;
      SLOTS when it never stops. */
  function ProbeFrom<K, V>(ops: KeyOps<K>, t: Table<K, V>, k: K, i: nat): (p: nat)
    requires i <= SLOTS
    ensures i <= p <= SLOTS
    decreases SLOTS - i
  {
    if i == SLOTS then SLOTS
    else if Stops(ops, t, k, Slot(ops.hash(k), i)) then i
    else ProbeFrom(ops, t, k, i + 1)
  }

  /** The slot of k, if the probe finds it. */
  function Find<K, V>(ops: KeyOps<K>, t: Table<K, V>, k: K): Option<MapHash> {
    var p := ProbeFrom(ops, t, k, 0);
    if p < SLOTS && Slot(ops.hash(k), p) in t then Some(Slot(ops.hash(k), p)) else None
  }

  function Lookup<K, V>(ops: KeyOps<K>, t: Table<K, V>, k: K): Option<V> {
    var p := ProbeFrom(ops, t, k, 0);
    if p < SLOTS && Slot(ops.hash(k), p) in t then Some(t[Slot(ops.hash(k), p)].value) else None
  }

  /** The probe stops at its first stopping slot, and nowhere before. */
  lemma {:induction false} ProbeIsFirst<K, V>(ops: KeyOps<K>, t: Table<K, V>, k: K, i: nat, p: nat)
    requires i <= p < SLOTS
    requires forall j :: i <= j < p ==> !Stops(ops, t, k, Slot(ops.hash(k), j))
    requires Stops(ops, t, k, Slot(ops.hash(k), p))
    ensures ProbeFrom(ops, t, k, i) == p
    decreases p - i
  {
    if i < p {
      ProbeIsFirst(ops, t, k, i + 1, p);
    }
  }

  lemma {:induction false} ProbeResult<K, V>(ops: KeyOps<K>, t: Table<K, V>, k: K, i: nat)
    requires i <= SLOTS
    ensures var p := ProbeFrom(ops, t, k, i);
            && (forall j :: i <= j < p ==> !Stops(ops, t, k, Slot(ops.hash(k), j)))
            && (p < SLOTS ==> Stops(ops, t, k, Slot(ops.hash(k), p)))
    decreases SLOTS - i
  {
    if i < SLOTS && !Stops(ops, t, k, Slot(ops.hash(k), i)) {
      ProbeResult(ops, t, k, i + 1);
    }
  }

  lemma {:induction false} RangeSize(n: nat, s: set<int>)
    requires forall x :: 0 <= x < n ==> x in s
    ensures |s| >= n
  {
    if n > 0 {
      RangeSize(n - 1, s - {n - 1});
    }
  }

  /** A table with a free slot stops every probe, in spite of the wrap-around. */
  lemma ProbeTerminates<K, V>(ops: KeyOps<K>, t: Table<K, V>, k: K)
    requires |t| < SLOTS
    ensures ProbeFrom(ops, t, k, 0) < SLOTS
  {
    ProbeResult(ops, t, k, 0);
    if ProbeFrom(ops, t, k, 0) == SLOTS {
      forall x: int | 0 <= x < SLOTS ensures x in t.Keys {
        assert Slot(ops.hash(k), Dist(ops.hash(k), x)) == x;
      }
      RangeSize(SLOTS, t.Keys);
    }
  }

  // ---- the probe invariant -------------------------------------------------

  /** Every slot from hash(key) up to the entry's own slot is occupied. */
  ghost predicate PathOccupied<K, V>(ops: KeyOps<K>, t: Table<K, V>, s: MapHash)
    requires s in t
  {
    forall x :: OnPath(ops.hash(t[s].key), s, x) ==> x in t
  }

  ghost predicate WellFormed<K, V>(ops: KeyOps<K>, t: Table<K, V>) {
    && (forall s :: s in t ==> PathOccupied(ops, t, s))
    && (forall s, s' :: s in t && s' in t && ops.equals(t[s].key, t[s'].key) ==> s == s')
  }

  /** In a well-formed table the probe for a stored key ends in its slot. */
  lemma ProbeFindsStored<K(!new), V>(ops: KeyOps<K>, t: Table<K, V>, k: K, s: MapHash)
    requires Lawful(ops) && WellFormed(ops, t)
    requires s in t && ops.equals(t[s].key, k)
    ensures ProbeFrom(ops, t, k, 0) == Dist(ops.hash(k), s)
    ensures Find(ops, t, k) == Some(s) && Lookup(ops, t, k) == Some(t[s].value)
  {
    var h := ops.hash(k);
    forall j | 0 <= j < Dist(h, s) ensures !Stops(ops, t, k, Slot(h, j)) {
      var x := Slot(h, j);
      assert PathOccupied(ops, t, s);
      assert OnPath(h, s, x);
    }
    ProbeIsFirst(ops, t, k, 0, Dist(h, s));
  }

  /** A key that no entry holds is not found, well-formed or not. */
  lemma ProbeMissesAbsent<K, V>(ops: KeyOps<K>, t: Table<K, V>, k: K)
    requires forall s :: s in t ==> !ops.equals(t[s].key, k)
    ensures Find(ops, t, k) == None && Lookup(ops, t, k) == None
  {
    ProbeResult(ops, t, k, 0);
  }

  /** What is found is stored. */
  lemma FoundIsStored<K, V>(ops: KeyOps<K>, t: Table<K, V>, k: K)
    ensures var f := Find(ops, t, k);
            && (f.Some? ==> f.value in t && ops.equals(t[f.value].key, k) && Lookup(ops, t, k) == Some(t[f.value].value))
            && (f.None? ==> Lookup(ops, t, k) == None)
  {
    ProbeResult(ops, t, k, 0);
  }

  // ---- set -----------------------------------------------------------------

  function NewKey<K>(ops: KeyOps<K>, k: K, copyKey: bool): K {
    if copyKey then ops.copy(k) else k
  }

  function SetTable<K, V>(ops: KeyOps<K>, t: Table<K, V>, k: K, v: V, copyKey: bool, finalizeKey: bool): Table<K, V> {
    var p := ProbeFrom(ops, t, k, 0);
    if p == SLOTS then t
    else
      var s := Slot(ops.hash(k), p);
      if s in t then t[s := Entry(t[s].key, t[s].finalize, v)]
      else t[s := Entry(NewKey(ops, k, copyKey), finalizeKey, v)]
  }

  /** t' is t with an entry for k written into s, which was free or held k, and which
      the probe for k reaches. */
  ghost predicate Written<K, V>(ops: KeyOps<K>, t: Table<K, V>, t': Table<K, V>, k: K, v: V, finalizeKey: bool, s: MapHash) {
    && t'.Keys == t.Keys + {s}
    && t'[s].value == v && ops.equals(t'[s].key, k)
    && (s in t ==> t'[s].key == t[s].key)
    && t'[s].finalize == (if s in t then t[s].finalize else finalizeKey)
    && (forall x :: x in t && x != s ==> t'[x] == t[x])
    && (forall x :: OnPath(ops.hash(k), s, x) ==> x in t)
    && (forall x :: x in t && ops.equals(t[x].key, k) ==> x == s)
  }

  lemma SetWrites<K(!new), V>(ops: KeyOps<K>, t: Table<K, V>, k: K, v: V, copyKey: bool, finalizeKey: bool)
      returns (s: MapHash)
    requires Lawful(ops) && WellFormed(ops, t) && |t| < SLOTS
    ensures Written(ops, t, SetTable(ops, t, k, v, copyKey, finalizeKey), k, v, finalizeKey, s)
  {
    ProbeTerminates(ops, t, k);
    s := Slot(ops.hash(k), ProbeFrom(ops, t, k, 0));
    forall x | x in t && ops.equals(t[x].key, k) ensures x == s {
      ProbeFindsStored(ops, t, k, x);
    }
    WriteShape(ops, t, k, v, copyKey, finalizeKey, s);
  }

  lemma WriteShape<K, V>(ops: KeyOps<K>, t: Table<K, V>, k: K, v: V, copyKey: bool, finalizeKey: bool, s: MapHash)
    requires ops.equals(NewKey(ops, k, copyKey), k)
    requires ProbeFrom(ops, t, k, 0) < SLOTS && s == Slot(ops.hash(k), ProbeFrom(ops, t, k, 0))
    requires forall x :: x in t && ops.equals(t[x].key, k) ==> x == s
    ensures Written(ops, t, SetTable(ops, t, k, v, copyKey, finalizeKey), k, v, finalizeKey, s)
  {
    ProbeResult(ops, t, k, 0);
    PathBeforeStop(ops, t, k);
  }

  lemma PathBeforeStop<K, V>(ops: KeyOps<K>, t: Table<K, V>, k: K)
    requires ProbeFrom(ops, t, k, 0) < SLOTS
    ensures var h := ops.hash(k);
            forall x :: OnPath(h, Slot(h, ProbeFrom(ops, t, k, 0)), x) ==> x in t
  {
    var h := ops.hash(k);
    ProbeResult(ops, t, k, 0);
    forall x | OnPath(h, Slot(h, ProbeFrom(ops, t, k, 0)), x) ensures x in t {
      assert !Stops(ops, t, k, Slot(h, Dist(h, x)));
    }
  }

  lemma WrittenWellFormed<K(!new), V>(ops: KeyOps<K>, t: Table<K, V>, t': Table<K, V>, k: K, v: V, finalizeKey: bool, s: MapHash)
    requires Lawful(ops) && WellFormed(ops, t) && Written(ops, t, t', k, v, finalizeKey, s)
    ensures WellFormed(ops, t')
  {
    forall x | x in t' ensures PathOccupied(ops, t', x) {
      if x != s {
        assert PathOccupied(ops, t, x);
      }
    }
    WrittenDistinct(ops, t, t', k, v, finalizeKey, s);
  }

  lemma WrittenDistinct<K(!new), V>(ops: KeyOps<K>, t: Table<K, V>, t': Table<K, V>, k: K, v: V, finalizeKey: bool, s: MapHash)
    requires Lawful(ops) && WellFormed(ops, t) && Written(ops, t, t', k, v, finalizeKey, s)
    ensures forall x, x' :: x in t' && x' in t' && ops.equals(t'[x].key, t'[x'].key) ==> x == x'
  {
    forall x | x in t' && (ops.equals(t'[x].key, t'[s].key) || ops.equals(t'[s].key, t'[x].key)) ensures x == s {
      HoldersOfKey(ops, t'[x].key, t'[s].key, k);
    }
  }

  /** A key equal to one that is equal to k is equal to k. */
  lemma HoldersOfKey<K(!new)>(ops: KeyOps<K>, a: K, b: K, k: K)
    requires Lawful(ops) && (ops.equals(a, b) || ops.equals(b, a)) && ops.equals(b, k)
    ensures ops.equals(a, k)
  {
  }

  lemma UnequalThrough<K(!new)>(ops: KeyOps<K>, a: K, k: K, k': K)
    requires Lawful(ops) && ops.equals(a, k)
    ensures ops.equals(a, k') <==> ops.equals(k, k')
  {
    assert ops.equals(k, a);
  }

  lemma WrittenFind<K(!new), V>(ops: KeyOps<K>, t: Table<K, V>, t': Table<K, V>, k: K, v: V, finalizeKey: bool, s: MapHash, k': K)
    requires Lawful(ops) && WellFormed(ops, t) && WellFormed(ops, t') && Written(ops, t, t', k, v, finalizeKey, s)
    ensures Find(ops, t', k') == if ops.equals(k, k') then Some(s) else Find(ops, t, k')
  {
    if ops.equals(k, k') {
      ProbeFindsStored(ops, t', k', s);
    } else {
      assert !ops.equals(t'[s].key, k') by {
        assert ops.equals(k, t'[s].key);
      }
      FoundIsStored(ops, t, k');
      FoundIsStored(ops, t', k');
      if Find(ops, t, k').Some? {
        ProbeFindsStored(ops, t', k', Find(ops, t, k').value);
      } else if Find(ops, t', k').Some? {
        ProbeFindsStored(ops, t, k', Find(ops, t', k').value);
      }
    }
  }

  /** Before the write, equal keys were found in s or not at all. */
  lemma FoundBeforeWrite<K(!new), V>(ops: KeyOps<K>, t: Table<K, V>, t': Table<K, V>, k: K, v: V, finalizeKey: bool, s: MapHash, k': K)
    requires Lawful(ops) && WellFormed(ops, t) && Written(ops, t, t', k, v, finalizeKey, s) && ops.equals(k, k')
    ensures Find(ops, t, k') == if s in t then Some(s) else None
  {
    FoundIsStored(ops, t, k');
    if s in t {
      ProbeFindsStored(ops, t, k', s);
    }
  }

  /** What the map holds for a key: its value, and whether the key is to be finalized. */
  datatype Held<V> = Held(value: V, marked: bool)

  ghost function LookupHeld<K, V>(ops: KeyOps<K>, t: Table<K, V>, k: K): Option<Held<V>> {
    var f := Find(ops, t, k);
    if f.Some? then Some(Held(t[f.value].value, t[f.value].finalize)) else None
  }

  /** A key keeps the mark it was stored with. */
  function Stored<V>(before: Option<Held<V>>, v: V, finalizeKey: bool): Held<V> {
    Held(v, if before.Some? then before.value.marked else finalizeKey)
  }

  /** Setting keeps the probe invariant, and changes the answer for equal keys only. */
  lemma SetCorrect<K(!new), V>(ops: KeyOps<K>, t: Table<K, V>, k: K, v: V, copyKey: bool, finalizeKey: bool)
    requires Lawful(ops) && WellFormed(ops, t) && |t| < SLOTS
    ensures var t' := SetTable(ops, t, k, v, copyKey, finalizeKey);
            && WellFormed(ops, t')
            && (forall k' :: Lookup(ops, t', k') == if ops.equals(k, k') then Some(v) else Lookup(ops, t, k'))
            && (forall k' :: LookupHeld(ops, t', k') ==
                  if ops.equals(k, k') then Some(Stored(LookupHeld(ops, t, k'), v, finalizeKey)) else LookupHeld(ops, t, k'))
  {
    var t' := SetTable(ops, t, k, v, copyKey, finalizeKey);
    var s := SetWrites(ops, t, k, v, copyKey, finalizeKey);
    WrittenWellFormed(ops, t, t', k, v, finalizeKey, s);
    forall k'
      ensures Lookup(ops, t', k') == if ops.equals(k, k') then Some(v) else Lookup(ops, t, k')
      ensures LookupHeld(ops, t', k') ==
                if ops.equals(k, k') then Some(Stored(LookupHeld(ops, t, k'), v, finalizeKey)) else LookupHeld(ops, t, k')
    {
      WrittenHeld(ops, t, t', k, v, finalizeKey, s, k');
    }
  }

  lemma WrittenHeld<K(!new), V>(ops: KeyOps<K>, t: Table<K, V>, t': Table<K, V>, k: K, v: V, finalizeKey: bool, s: MapHash, k': K)
    requires Lawful(ops) && WellFormed(ops, t) && WellFormed(ops, t') && Written(ops, t, t', k, v, finalizeKey, s)
    ensures Lookup(ops, t', k') == if ops.equals(k, k') then Some(v) else Lookup(ops, t, k')
    ensures LookupHeld(ops, t', k') ==
              if ops.equals(k, k') then Some(Stored(LookupHeld(ops, t, k'), v, finalizeKey)) else LookupHeld(ops, t, k')
  {
    WrittenFind(ops, t, t', k, v, finalizeKey, s, k');
    if ops.equals(k, k') {
      FoundBeforeWrite(ops, t, t', k, v, finalizeKey, s, k');
    } else {
      FoundIsStored(ops, t, k');
      assert !ops.equals(t'[s].key, k') by {
        assert ops.equals(k, t'[s].key);
      }
    }
  }

  // ---- delete --------------------------------------------------------------

  /** Delete vacates the slot of k; nothing is moved up. */
  function DeleteTable<K, V>(ops: KeyOps<K>, t: Table<K, V>, k: K): Table<K, V> {
    var f := Find(ops, t, k);
    if f.Some? then t - {f.value} else t
  }

  /** The vacated slot is on no other entry's probe path. */
  ghost predicate DeleteFaithful<K, V>(ops: KeyOps<K>, t: Table<K, V>, k: K) {
    var f := Find(ops, t, k);
    f.Some? ==> forall s :: s in t ==> !OnPath(ops.hash(t[s].key), s, f.value)
  }

  /** Delete(k) makes k absent, from any well-formed map. */
  lemma DeleteRemoves<K(!new), V>(ops: KeyOps<K>, t: Table<K, V>, k: K)
    requires Lawful(ops) && WellFormed(ops, t)
    ensures Lookup(ops, DeleteTable(ops, t, k), k) == None
    ensures forall s :: s in DeleteTable(ops, t, k) ==> !ops.equals(t[s].key, k)
  {
    var t' := DeleteTable(ops, t, k);
    forall s | s in t' ensures !ops.equals(t[s].key, k) {
      if ops.equals(t[s].key, k) {
        ProbeFindsStored(ops, t, k, s);
      }
    }
    ProbeMissesAbsent(ops, t', k);
  }

  /** With x vacated, a probe that does not stop before i, passes x only at i, and finds a
      stop at i, stops there. */
  lemma ProbeAfterRemoval<K, V>(ops: KeyOps<K>, t: Table<K, V>, k: K, x: MapHash, i: nat)
    requires i <= ProbeFrom(ops, t, k, 0) < SLOTS
    requires i <= Dist(ops.hash(k), x)
    requires Stops(ops, t - {x}, k, Slot(ops.hash(k), i))
    ensures ProbeFrom(ops, t - {x}, k, 0) == i
  {
    var h := ops.hash(k);
    ProbeResult(ops, t, k, 0);
    forall j | 0 <= j < i ensures !Stops(ops, t - {x}, k, Slot(h, j)) {
      assert !Stops(ops, t, k, Slot(h, j));
    }
    ProbeIsFirst(ops, t - {x}, k, 0, i);
  }

  /** For another key the answer survives exactly when that key is not stored, or the
      vacated slot is not on its probe path. */
  lemma DeleteOther<K(!new), V>(ops: KeyOps<K>, t: Table<K, V>, k: K, k': K)
    requires Lawful(ops) && WellFormed(ops, t)
    requires !ops.equals(k, k')
    ensures Lookup(ops, DeleteTable(ops, t, k), k') == Lookup(ops, t, k')
       <==> var f, f' := Find(ops, t, k), Find(ops, t, k');
            f.None? || f'.None? || !OnPath(ops.hash(k'), f'.value, f.value)
  {
    var t' := DeleteTable(ops, t, k);
    var f, f' := Find(ops, t, k), Find(ops, t, k');
    FoundIsStored(ops, t, k);
    FoundIsStored(ops, t, k');
    if f.Some? && f'.None? {
      forall s | s in t ensures !ops.equals(t[s].key, k') {
        if ops.equals(t[s].key, k') {
          ProbeFindsStored(ops, t, k', s);
        }
      }
      ProbeMissesAbsent(ops, t', k');
    } else if f.Some? {
      var h, x, s := ops.hash(k'), f.value, f'.value;
      ProbeFindsStored(ops, t, k', s);
      ProbeResult(ops, t, k', 0);
      assert ops.equals(k, t[x].key);
      assert s != x;
      if OnPath(h, s, x) {
        ProbeAfterRemoval(ops, t, k', x, Dist(h, x));
      } else {
        ProbeAfterRemoval(ops, t, k', x, Dist(h, s));
      }
    }
  }

  /** The probe invariant survives Delete exactly when no stored key's path is cut. */
  lemma DeleteKeepsInvariant<K(!new), V>(ops: KeyOps<K>, t: Table<K, V>, k: K)
    requires Lawful(ops) && WellFormed(ops, t)
    ensures WellFormed(ops, DeleteTable(ops, t, k)) <==> DeleteFaithful(ops, t, k)
  {
    var t' := DeleteTable(ops, t, k);
    var f := Find(ops, t, k);
    FoundIsStored(ops, t, k);
    if f.Some? {
      var x := f.value;
      if DeleteFaithful(ops, t, k) {
        forall s | s in t' ensures PathOccupied(ops, t', s) {
          assert PathOccupied(ops, t, s);
        }
      } else {
        var s :| s in t && OnPath(ops.hash(t[s].key), s, x);
        assert !PathOccupied(ops, t', s);
      }
    }
  }

  /** Deletion from the abstract map: k is gone, and every other key answers as before. */
  ghost predicate IsDeletion<K(!new), V>(ops: KeyOps<K>, t: Table<K, V>, t': Table<K, V>, k: K) {
    forall k' :: Lookup(ops, t', k') == if ops.equals(k, k') then None else Lookup(ops, t, k')
  }

  /** Delete is deletion from the abstract map exactly when it cuts no probe path, and then
      it keeps the probe invariant. */
  lemma DeleteCorrect<K(!new), V>(ops: KeyOps<K>, t: Table<K, V>, k: K)
    requires Lawful(ops) && WellFormed(ops, t)
    ensures var t' := DeleteTable(ops, t, k);
            && (IsDeletion(ops, t, t', k) <==> DeleteFaithful(ops, t, k))
            && (IsDeletion(ops, t, t', k) <==> WellFormed(ops, t'))
  {
    DeleteKeepsInvariant(ops, t, k);
    if DeleteFaithful(ops, t, k) {
      FaithfulDeletes(ops, t, k);
    } else {
      UnfaithfulHides(ops, t, k);
    }
  }

  lemma FaithfulDeletes<K(!new), V>(ops: KeyOps<K>, t: Table<K, V>, k: K)
    requires Lawful(ops) && WellFormed(ops, t) && DeleteFaithful(ops, t, k)
    ensures forall k' :: Find(ops, DeleteTable(ops, t, k), k') == if ops.equals(k, k') then None else Find(ops, t, k')
    ensures IsDeletion(ops, t, DeleteTable(ops, t, k), k)
  {
    var t' := DeleteTable(ops, t, k);
    DeleteKeepsInvariant(ops, t, k);
    DeleteRemoves(ops, t, k);
    FoundIsStored(ops, t, k);
    forall k'
      ensures Find(ops, t', k') == if ops.equals(k, k') then None else Find(ops, t, k')
      ensures Lookup(ops, t', k') == if ops.equals(k, k') then None else Lookup(ops, t, k')
    {
      FindAfterDelete(ops, t, k, k');
    }
  }

  lemma FindAfterDelete<K(!new), V>(ops: KeyOps<K>, t: Table<K, V>, k: K, k': K)
    requires Lawful(ops) && WellFormed(ops, t) && WellFormed(ops, DeleteTable(ops, t, k))
    ensures var t' := DeleteTable(ops, t, k);
            && Find(ops, t', k') == (if ops.equals(k, k') then None else Find(ops, t, k'))
            && Lookup(ops, t', k') == if ops.equals(k, k') then None else Lookup(ops, t, k')
  {
    var t' := DeleteTable(ops, t, k);
    FoundIsStored(ops, t, k');
    FoundIsStored(ops, t', k');
    if ops.equals(k, k') {
      DeleteRemoves(ops, t, k);
      assert ops.equals(k', k);
      ProbeMissesAbsent(ops, t', k');
    } else if Find(ops, t, k').Some? {
      FoundIsStored(ops, t, k);
      if Find(ops, t, k).Some? {
        UnequalThrough(ops, t[Find(ops, t, k).value].key, k, k');
      }
      ProbeFindsStored(ops, t', k', Find(ops, t, k').value);
    } else if Find(ops, t', k').Some? {
      ProbeFindsStored(ops, t, k', Find(ops, t', k').value);
    }
  }

  /** The key whose path is cut loses its answer. */
  lemma UnfaithfulHides<K(!new), V>(ops: KeyOps<K>, t: Table<K, V>, k: K)
    requires Lawful(ops) && WellFormed(ops, t) && !DeleteFaithful(ops, t, k)
    ensures !IsDeletion(ops, t, DeleteTable(ops, t, k), k)
  {
    var x := Find(ops, t, k).value;
    FoundIsStored(ops, t, k);
    var s :| s in t && OnPath(ops.hash(t[s].key), s, x);
    var k' := t[s].key;
    UnequalThrough(ops, t[x].key, k, k');
    ProbeFindsStored(ops, t, k', s);
    DeleteOther(ops, t, k, k');
  }

  // ---- whole runs ----------------------------------------------------------

  datatype Op<K, V> =
    | Set(k: K, v: V)
    | SetUnsafe(k: K, v: V, noCopyKey: bool, noFinalizeKey: bool)
    | Delete(k: K)
    | Reset
    | Reallocate

  /** A call of a finalize function that was not given panics, and a panic ends the run. */
  datatype Outcome<K, V> = Done(table: Table<K, V>) | Panicked

  /** The slots whose keys are to be finalized when they are removed. */
  ghost function Marked<K, V>(t: Table<K, V>): set<MapHash> {
    set s | s in t && t[s].finalize
  }

  /** The slots whose keys an operation removes and, where marked, finalizes. */
  ghost function Removed<K, V>(ops: KeyOps<K>, t: Table<K, V>, op: Op<K, V>): set<MapHash> {
    match op
    case Delete(k) => if Find(ops, t, k).Some? then {Find(ops, t, k).value} else {}
    case Reset => t.Keys
    case _ => {}
  }

  ghost predicate CallsFinalize<K, V>(ops: KeyOps<K>, t: Table<K, V>, op: Op<K, V>) {
    Removed(ops, t, op) * Marked(t) != {}
  }

  ghost function Apply<K, V>(ops: KeyOps<K>, t: Table<K, V>, op: Op<K, V>): Outcome<K, V> {
    if CallsFinalize(ops, t, op) && !ops.hasFinalize then Panicked
    else Done(Applied(ops, t, op))
  }

  function Applied<K, V>(ops: KeyOps<K>, t: Table<K, V>, op: Op<K, V>): Table<K, V> {
    match op
    case Set(k, v) => SetTable(ops, t, k, v, true, ops.hasFinalize)
    case SetUnsafe(k, v, noCopyKey, noFinalizeKey) => SetTable(ops, t, k, v, !noCopyKey, !noFinalizeKey)
    case Delete(k) => DeleteTable(ops, t, k)
    case Reset => map[]
    case Reallocate => map[]
  }

  ghost function RunOps<K, V>(ops: KeyOps<K>, run: seq<Op<K, V>>): Outcome<K, V> {
    if run == [] then Done(map[])
    else
      match RunOps(ops, run[..|run| - 1])
      case Done(t) => Apply(ops, t, run[|run| - 1])
      case Panicked => Panicked
  }

  /** The abstract map: the last operation that concerns k decides its value, and the one
      that stored it decides its mark. */
  ghost function Latest<K, V>(ops: KeyOps<K>, run: seq<Op<K, V>>, k: K): Option<Held<V>> {
    if run == [] then None else LatestAfter(ops, Latest(ops, run[..|run| - 1], k), run[|run| - 1], k)
  }

  ghost function LatestAfter<K, V>(ops: KeyOps<K>, before: Option<Held<V>>, op: Op<K, V>, k: K): Option<Held<V>> {
    match op
    case Set(k', v) => if ops.equals(k', k) then Some(Stored(before, v, ops.hasFinalize)) else before
    case SetUnsafe(k', v, _, noFinalizeKey) =>
      if ops.equals(k', k) then Some(Stored(before, v, !noFinalizeKey)) else before
    case Delete(k') => if ops.equals(k', k) then None else before
    case Reset => None
    case Reallocate => None
  }

  lemma LatestSnoc<K, V>(ops: KeyOps<K>, run: seq<Op<K, V>>, op: Op<K, V>, k: K)
    ensures Latest(ops, run + [op], k) == LatestAfter(ops, Latest(ops, run, k), op, k)
  {
    assert (run + [op])[..|run|] == run;
  }

  /** What Get answers for it. */
  ghost function Answer<V>(held: Option<Held<V>>): Option<V> {
    match held
    case Some(h) => Some(h.value)
    case None => None
  }

  ghost predicate MarkedKey<K, V>(ops: KeyOps<K>, run: seq<Op<K, V>>, k: K) {
    Latest(ops, run, k).Some? && Latest(ops, run, k).value.marked
  }

  /** In the abstract map this operation removes a marked key. */
  ghost predicate RemovesMarked<K(!new), V>(ops: KeyOps<K>, before: seq<Op<K, V>>, op: Op<K, V>) {
    match op
    case Delete(k) => MarkedKey(ops, before, k)
    case Reset => exists k :: MarkedKey(ops, before, k)
    case _ => false
  }

  /** Without a finalize function a marked key is removed. */
  ghost predicate Misused<K(!new), V>(ops: KeyOps<K>, run: seq<Op<K, V>>) {
    !ops.hasFinalize && exists j :: 0 <= j < |run| && RemovesMarked(ops, run[..j], run[j])
  }

  /** Every step had a free slot to end its probe. */
  ghost predicate HasRoom<K, V>(ops: KeyOps<K>, run: seq<Op<K, V>>) {
    run == [] ||
    var before := RunOps(ops, run[..|run| - 1]);
    HasRoom(ops, run[..|run| - 1]) && (before.Done? ==> |before.table| < SLOTS)
  }

  /** No Delete cut a probe path. */
  ghost predicate PathsKept<K, V>(ops: KeyOps<K>, run: seq<Op<K, V>>) {
    run == [] ||
    var before, op := RunOps(ops, run[..|run| - 1]), run[|run| - 1];
    && PathsKept(ops, run[..|run| - 1])
    && (before.Done? && op.Delete? ==> DeleteFaithful(ops, before.table, op.k))
  }

  ghost predicate Agrees<K(!new), V>(ops: KeyOps<K>, run: seq<Op<K, V>>, t: Table<K, V>) {
    WellFormed(ops, t) && forall k :: LookupHeld(ops, t, k) == Latest(ops, run, k)
  }

  lemma EmptyAgrees<K(!new), V>(ops: KeyOps<K>, run: seq<Op<K, V>>)
    requires forall k :: Latest(ops, run, k) == None
    ensures Agrees(ops, run, map[])
  {
    var t: Table<K, V> := map[];
    forall k ensures LookupHeld(ops, t, k) == Latest(ops, run, k) {
      ProbeMissesAbsent(ops, t, k);
    }
  }

  lemma {:induction false} SetAgrees<K(!new), V>(ops: KeyOps<K>, run: seq<Op<K, V>>, t: Table<K, V>)
    requires run != [] && (run[|run| - 1].Set? || run[|run| - 1].SetUnsafe?)
    requires Lawful(ops) && Agrees(ops, run[..|run| - 1], t) && |t| < SLOTS
    ensures Agrees(ops, run, Applied(ops, t, run[|run| - 1]))
  {
    match run[|run| - 1]
    case Set(k, v) => SetCorrect(ops, t, k, v, true, ops.hasFinalize);
    case SetUnsafe(k, v, noCopyKey, noFinalizeKey) => SetCorrect(ops, t, k, v, !noCopyKey, !noFinalizeKey);
  }

  lemma {:induction false} DeleteAgrees<K(!new), V>(ops: KeyOps<K>, run: seq<Op<K, V>>, t: Table<K, V>, k: K)
    requires run != [] && run[|run| - 1] == Op<K, V>.Delete(k)
    requires Lawful(ops) && Agrees(ops, run[..|run| - 1], t) && DeleteFaithful(ops, t, k)
    ensures Agrees(ops, run, DeleteTable(ops, t, k))
  {
    DeleteKeepsInvariant(ops, t, k);
    FaithfulDeletes(ops, t, k);
  }

  /** In tables that agree, the same operations remove a marked key. */
  lemma SameRemovals<K(!new), V>(ops: KeyOps<K>, run: seq<Op<K, V>>, t: Table<K, V>, op: Op<K, V>)
    requires Lawful(ops) && Agrees(ops, run, t)
    ensures CallsFinalize(ops, t, op) <==> RemovesMarked(ops, run, op)
  {
    match op
    case Delete(k) =>
      assert LookupHeld(ops, t, k) == Latest(ops, run, k);
      var f := Find(ops, t, k);
      if MarkedKey(ops, run, k) {
        assert f.value in Removed(ops, t, op) * Marked(t);
      }
    case Reset => ResetRemovals(ops, run, t);
    case _ =>
  }

  lemma ResetRemovals<K(!new), V>(ops: KeyOps<K>, run: seq<Op<K, V>>, t: Table<K, V>)
    requires Lawful(ops) && Agrees(ops, run, t)
    ensures CallsFinalize(ops, t, Op.Reset) <==> exists k :: MarkedKey(ops, run, k)
  {
    if s :| s in Removed(ops, t, Op.Reset) * Marked(t) {
      ProbeFindsStored(ops, t, t[s].key, s);
      assert MarkedKey(ops, run, t[s].key);
    }
    if k :| MarkedKey(ops, run, k) {
      assert LookupHeld(ops, t, k) == Latest(ops, run, k);
      assert Find(ops, t, k).value in Removed(ops, t, Op.Reset) * Marked(t);
    }
  }

  lemma MisusedSnoc<K(!new), V>(ops: KeyOps<K>, run: seq<Op<K, V>>)
    requires run != []
    ensures var before, op := run[..|run| - 1], run[|run| - 1];
            Misused(ops, run) <==> Misused(ops, before) || (!ops.hasFinalize && RemovesMarked(ops, before, op))
  {
    var before := run[..|run| - 1];
    assert forall j :: 0 <= j < |before| ==> before[..j] == run[..j] && before[j] == run[j];
  }

  /** After any run with room whose Deletes cut no path: the run panics exactly when in the
      abstract map a marked key was removed without a finalize function, and otherwise the
      map answers as the abstract map does, marks included. */
  lemma RunAgrees<K(!new), V>(ops: KeyOps<K>, run: seq<Op<K, V>>)
    requires Lawful(ops) && HasRoom(ops, run) && PathsKept(ops, run)
    ensures RunOps(ops, run).Panicked? <==> Misused(ops, run)
    ensures RunOps(ops, run).Done? ==> Agrees(ops, run, RunOps(ops, run).table)
    ensures RunOps(ops, run).Done? ==> forall k :: Lookup(ops, RunOps(ops, run).table, k) == Answer(Latest(ops, run, k))
  {
    RunRefines(ops, run);
    if RunOps(ops, run).Done? {
      HeldIsLookup(ops, run, RunOps(ops, run).table);
    }
  }

  lemma {:induction false} RunRefines<K(!new), V>(ops: KeyOps<K>, run: seq<Op<K, V>>)
    requires Lawful(ops) && HasRoom(ops, run) && PathsKept(ops, run)
    ensures RunOps(ops, run).Panicked? <==> Misused(ops, run)
    ensures RunOps(ops, run).Done? ==> Agrees(ops, run, RunOps(ops, run).table)
  {
    if run == [] {
      EmptyAgrees(ops, run);
    } else {
      var before := run[..|run| - 1];
      RunRefines(ops, before);
      MisusedSnoc(ops, run);
      if RunOps(ops, before).Done? {
        var t := RunOps(ops, before).table;
        SameRemovals(ops, before, t, run[|run| - 1]);
        AgreesStep(ops, run, t);
      }
    }
  }

  lemma HeldIsLookup<K(!new), V>(ops: KeyOps<K>, run: seq<Op<K, V>>, t: Table<K, V>)
    requires Agrees(ops, run, t)
    ensures forall k :: Lookup(ops, t, k) == Answer(Latest(ops, run, k))
  {
    forall k ensures Lookup(ops, t, k) == Answer(Latest(ops, run, k)) {
      assert LookupHeld(ops, t, k) == Latest(ops, run, k);
    }
  }

  lemma AgreesStep<K(!new), V>(ops: KeyOps<K>, run: seq<Op<K, V>>, t: Table<K, V>)
    requires run != [] && Lawful(ops) && Agrees(ops, run[..|run| - 1], t) && |t| < SLOTS
    requires run[|run| - 1].Delete? ==> DeleteFaithful(ops, t, run[|run| - 1].k)
    ensures Agrees(ops, run, Applied(ops, t, run[|run| - 1]))
  {
    match run[|run| - 1]
    case Set(_, _) => SetAgrees(ops, run, t);
    case SetUnsafe(_, _, _, _) => SetAgrees(ops, run, t);
    case Delete(k) => DeleteAgrees(ops, run, t, k);
    case _ => EmptyAgrees(ops, run);
  }

  /** A run without Delete that does not panic asks for nothing but room. */
  lemma SetOnlyRunAgrees<K(!new), V>(ops: KeyOps<K>, run: seq<Op<K, V>>, k: K)
    requires Lawful(ops) && HasRoom(ops, run)
    requires forall i :: 0 <= i < |run| ==> !run[i].Delete?
    ensures RunOps(ops, run).Panicked? <==> Misused(ops, run)
    ensures RunOps(ops, run).Done? ==> Lookup(ops, RunOps(ops, run).table, k) == Answer(Latest(ops, run, k))
  {
    SetOnlyKeepsPaths(ops, run);
    RunAgrees(ops, run);
  }

  lemma {:induction false} SetOnlyKeepsPaths<K, V>(ops: KeyOps<K>, run: seq<Op<K, V>>)
    requires forall i :: 0 <= i < |run| ==> !run[i].Delete?
    ensures PathsKept(ops, run)
  {
    if run != [] {
      SetOnlyKeepsPaths(ops, run[..|run| - 1]);
    }
  }

  lemma SetGrowth<K, V>(ops: KeyOps<K>, t: Table<K, V>, k: K, v: V, copyKey: bool, finalizeKey: bool)
    ensures |SetTable(ops, t, k, v, copyKey, finalizeKey)| <= |t| + 1
  {
    var t' := SetTable(ops, t, k, v, copyKey, finalizeKey);
    var p := ProbeFrom(ops, t, k, 0);
    if p < SLOTS {
      assert t'.Keys == t.Keys + {Slot(ops.hash(k), p)};
      assert |t'| == |t'.Keys| && |t| == |t.Keys|;
    }
  }

  lemma DeleteShrinks<K, V>(ops: KeyOps<K>, t: Table<K, V>, k: K)
    ensures |DeleteTable(ops, t, k)| <= |t|
  {
    var f := Find(ops, t, k);
    if f.Some? {
      assert DeleteTable(ops, t, k).Keys == t.Keys - {f.value};
      assert |DeleteTable(ops, t, k).Keys| <= |t.Keys|;
    }
  }

  /** No run of at most 2^64 operations lacks room. */
  lemma {:induction false} ShortRunHasRoom<K, V>(ops: KeyOps<K>, run: seq<Op<K, V>>)
    requires |run| <= SLOTS
    ensures HasRoom(ops, run)
    ensures RunOps(ops, run).Done? ==> |RunOps(ops, run).table| <= |run|
  {
    if run != [] {
      var before := run[..|run| - 1];
      ShortRunHasRoom(ops, before);
      if RunOps(ops, before).Done? {
        var t := RunOps(ops, before).table;
        match run[|run| - 1]
        case Set(k, v) => SetGrowth(ops, t, k, v, true, ops.hasFinalize);
        case SetUnsafe(k, v, noCopyKey, noFinalizeKey) => SetGrowth(ops, t, k, v, !noCopyKey, !noFinalizeKey);
        case Delete(k) => DeleteShrinks(ops, t, k);
        case _ =>
      }
    }
  }

  // ---- where the stored entries come from, paths cut or not ----------------

  predicate IsSet<K, V>(op: Op<K, V>) {
    op.Set? || op.SetUnsafe?
  }

  /** The key that an operation has stored: a copy, unless it asks for none. */
  ghost function KeyToStore<K, V>(ops: KeyOps<K>, op: Op<K, V>): K
    requires IsSet(op)
  {
    if op.SetUnsafe? && op.noCopyKey then op.k else ops.copy(op.k)
  }

  /** Whether that key is to be finalized. */
  ghost predicate ToFinalize<K, V>(ops: KeyOps<K>, op: Op<K, V>)
    requires IsSet(op)
  {
    if op.SetUnsafe? then !op.noFinalizeKey else ops.hasFinalize
  }

  /** The probe for k ends in s, which is free. */
  ghost predicate Fills<K, V>(ops: KeyOps<K>, t: Table<K, V>, k: K, s: MapHash) {
    var p := ProbeFrom(ops, t, k, 0);
    p < SLOTS && s == Slot(ops.hash(k), p) && s !in t
  }

  ghost predicate FillsSlot<K, V>(ops: KeyOps<K>, t: Table<K, V>, op: Op<K, V>, s: MapHash) {
    IsSet(op) && Fills(ops, t, op.k, s)
  }

  ghost predicate Vacates<K, V>(ops: KeyOps<K>, t: Table<K, V>, op: Op<K, V>, s: MapHash) {
    op.Reallocate? || s in Removed(ops, t, op)
  }

  /** Operation i filled s, and no later one vacated it. */
  ghost predicate FilledBy<K, V>(ops: KeyOps<K>, run: seq<Op<K, V>>, s: MapHash, i: nat) {
    && i < |run| && RunOps(ops, run[..i]).Done? && FillsSlot(ops, RunOps(ops, run[..i]).table, run[i], s)
    && forall m :: i < m < |run| ==> KeepsSlot(ops, run, s, m)
  }

  ghost predicate KeepsSlot<K, V>(ops: KeyOps<K>, run: seq<Op<K, V>>, s: MapHash, m: nat)
    requires m < |run|
  {
    RunOps(ops, run[..m]).Done? && !Vacates(ops, RunOps(ops, run[..m]).table, run[m], s)
  }

  /** What is in s is as operation op had it stored. */
  ghost predicate StoredBy<K, V>(ops: KeyOps<K>, t: Table<K, V>, s: MapHash, op: Op<K, V>) {
    IsSet(op) && s in t && t[s].key == KeyToStore(ops, op) && t[s].finalize == ToFinalize(ops, op)
  }

  /** One operation fills a slot, or vacates it, or leaves its key and mark alone. */
  lemma FillStep<K, V>(ops: KeyOps<K>, t: Table<K, V>, op: Op<K, V>, s: MapHash)
    ensures var t' := Applied(ops, t, op);
            && (s in t' <==> FillsSlot(ops, t, op, s) || (s in t && !Vacates(ops, t, op, s)))
            && (FillsSlot(ops, t, op, s) ==> StoredBy(ops, t', s, op))
            && (s in t && s in t' ==> t'[s].key == t[s].key && t'[s].finalize == t[s].finalize)
  {
  }

  lemma FilledBySnoc<K, V>(ops: KeyOps<K>, run: seq<Op<K, V>>, s: MapHash, i: nat)
    requires run != [] && i < |run| - 1
    ensures FilledBy(ops, run, s, i) <==> FilledBy(ops, run[..|run| - 1], s, i) && KeepsSlot(ops, run, s, |run| - 1)
  {
    var before := run[..|run| - 1];
    assert before[..i] == run[..i] && before[i] == run[i];
    forall m | i < m < |before| ensures KeepsSlot(ops, run, s, m) == KeepsSlot(ops, before, s, m) {
      assert before[..m] == run[..m] && before[m] == run[m];
    }
  }

  /** After any run a slot is in use exactly when an operation filled it and none vacated it
      since, and it holds the key and the mark that this operation asked for: a copy of its
      key unless it wanted none, whether the map can finalize or not. */
  lemma {:induction false} EntryOrigin<K, V>(ops: KeyOps<K>, run: seq<Op<K, V>>, s: MapHash)
    requires RunOps(ops, run).Done?
    ensures s in RunOps(ops, run).table <==> exists i: nat :: FilledBy(ops, run, s, i)
    ensures forall i: nat :: FilledBy(ops, run, s, i) ==> StoredBy(ops, RunOps(ops, run).table, s, run[i])
  {
    if run != [] {
      var before := run[..|run| - 1];
      EntryOrigin(ops, before, s);
      EntryOriginStep(ops, before, run, s, RunOps(ops, before).table);
    }
  }

  lemma EntryOriginStep<K, V>(ops: KeyOps<K>, before: seq<Op<K, V>>, run: seq<Op<K, V>>, s: MapHash, t: Table<K, V>)
    requires run != [] && before == run[..|run| - 1] && RunOps(ops, before) == Done(t)
    requires s in t <==> exists i: nat :: FilledBy(ops, before, s, i)
    requires forall i: nat :: FilledBy(ops, before, s, i) ==> StoredBy(ops, t, s, run[i])
    ensures var t' := Applied(ops, t, run[|run| - 1]);
            && (s in t' <==> exists i: nat :: FilledBy(ops, run, s, i))
            && forall i: nat :: FilledBy(ops, run, s, i) ==> StoredBy(ops, t', s, run[i])
  {
    var t' := Applied(ops, t, run[|run| - 1]);
    if i: nat :| FilledBy(ops, before, s, i) {
      FilledAfter(ops, before, run, s, t, i);
    }
    FilledAfter(ops, before, run, s, t, |run| - 1);
    FillStep(ops, t, run[|run| - 1], s);
    forall i: nat | FilledBy(ops, run, s, i) ensures StoredBy(ops, t', s, run[i]) {
      FilledAfter(ops, before, run, s, t, i);
    }
  }

  /** Who filled the slot after one more operation: this one, or who had filled it before, and
      then the entry is as it was. */
  lemma FilledAfter<K, V>(ops: KeyOps<K>, before: seq<Op<K, V>>, run: seq<Op<K, V>>, s: MapHash, t: Table<K, V>, i: nat)
    requires run != [] && before == run[..|run| - 1] && RunOps(ops, before) == Done(t)
    ensures var op := run[|run| - 1];
            FilledBy(ops, run, s, i) <==>
              if i == |run| - 1 then FillsSlot(ops, t, op, s) else FilledBy(ops, before, s, i) && !Vacates(ops, t, op, s)
    ensures i < |run| - 1 && FilledBy(ops, run, s, i) && StoredBy(ops, t, s, run[i]) ==>
              StoredBy(ops, Applied(ops, t, run[|run| - 1]), s, run[i])
    ensures i == |run| - 1 && FilledBy(ops, run, s, i) ==> StoredBy(ops, Applied(ops, t, run[i]), s, run[i])
  {
    FillStep(ops, t, run[|run| - 1], s);
    if i < |run| - 1 {
      FilledBySnoc(ops, run, s, i);
    }
  }

  // ---- when a run panics, paths cut or not ---------------------------------

  /** Operation i had s filled with a key to finalize, and no later one vacated it. */
  ghost predicate MarkedBy<K, V>(ops: KeyOps<K>, run: seq<Op<K, V>>, s: MapHash, i: nat) {
    FilledBy(ops, run, s, i) && ToFinalize(ops, run[i])
  }

  /** A slot is marked exactly when an operation marked it and none vacated it since. */
  lemma MarkedSince<K, V>(ops: KeyOps<K>, run: seq<Op<K, V>>, s: MapHash)
    requires RunOps(ops, run).Done?
    ensures s in Marked(RunOps(ops, run).table) <==> exists i: nat :: MarkedBy(ops, run, s, i)
  {
    EntryOrigin(ops, run, s);
    if s in Marked(RunOps(ops, run).table) {
      var i: nat :| FilledBy(ops, run, s, i);
      assert MarkedBy(ops, run, s, i);
    }
  }

  /** Operation j removes an entry that operation i marked. */
  ghost predicate RemovesMarkOf<K, V>(ops: KeyOps<K>, run: seq<Op<K, V>>, i: nat, j: nat) {
    && i < j < |run| && RunOps(ops, run[..j]).Done?
    && exists s :: s in Removed(ops, RunOps(ops, run[..j]).table, run[j]) && MarkedBy(ops, run[..j], s, i)
  }

  lemma RemovesMarkOfSnoc<K, V>(ops: KeyOps<K>, run: seq<Op<K, V>>, i: nat, j: nat)
    requires run != [] && j < |run| - 1
    ensures RemovesMarkOf(ops, run, i, j) <==> RemovesMarkOf(ops, run[..|run| - 1], i, j)
  {
    assert run[..|run| - 1][..j] == run[..j];
  }

  lemma CallsFinalizeIff<K, V>(ops: KeyOps<K>, run: seq<Op<K, V>>)
    requires run != [] && RunOps(ops, run[..|run| - 1]).Done?
    ensures CallsFinalize(ops, RunOps(ops, run[..|run| - 1]).table, run[|run| - 1])
       <==> var n := |run| - 1; exists i: nat :: RemovesMarkOf(ops, run, i, n)
  {
    var before, n := run[..|run| - 1], |run| - 1;
    var t := RunOps(ops, before).table;
    if s :| s in Removed(ops, t, run[n]) * Marked(t) {
      MarkedSince(ops, before, s);
      var i: nat :| MarkedBy(ops, before, s, i);
      assert RemovesMarkOf(ops, run, i, n);
    }
    if i: nat :| RemovesMarkOf(ops, run, i, n) {
      var s :| s in Removed(ops, t, run[n]) && MarkedBy(ops, before, s, i);
      MarkedSince(ops, before, s);
      assert s in Removed(ops, t, run[n]) * Marked(t);
    }
  }

  /** Any run, whatever its Deletes cut, panics exactly when there is no finalize function
      and some Delete or Reset removes an entry that was stored to be finalized. */
  lemma {:induction false} RunPanicsIff<K, V>(ops: KeyOps<K>, run: seq<Op<K, V>>)
    ensures RunOps(ops, run).Panicked? <==> !ops.hasFinalize && RemovesMark(ops, run)
  {
    if run != [] {
      var before := run[..|run| - 1];
      RunPanicsIff(ops, before);
      RemovalsSnoc(ops, before, run);
    }
  }

  ghost predicate RemovesMark<K, V>(ops: KeyOps<K>, run: seq<Op<K, V>>) {
    exists i: nat, j: nat :: RemovesMarkOf(ops, run, i, j)
  }

  lemma RemovalsSnoc<K, V>(ops: KeyOps<K>, before: seq<Op<K, V>>, run: seq<Op<K, V>>)
    requires run != [] && before == run[..|run| - 1]
    ensures RemovesMark(ops, run) <==>
              RemovesMark(ops, before) || (RunOps(ops, before).Done? && CallsFinalize(ops, RunOps(ops, before).table, run[|run| - 1]))
  {
    if RunOps(ops, before).Done? {
      CallsFinalizeIff(ops, run);
    }
    RemovalsBefore(ops, before, run);
  }

  /** A removal in the run is one of its last operation, or was one before. */
  lemma RemovalsBefore<K, V>(ops: KeyOps<K>, before: seq<Op<K, V>>, run: seq<Op<K, V>>)
    requires run != [] && before == run[..|run| - 1]
    ensures var n := |run| - 1;
            RemovesMark(ops, run) <==> RemovesMark(ops, before) || exists i: nat :: RemovesMarkOf(ops, run, i, n)
  {
    if i: nat, j: nat :| RemovesMarkOf(ops, before, i, j) {
      RemovesMarkOfSnoc(ops, run, i, j);
    }
    if i: nat, j: nat :| RemovesMarkOf(ops, run, i, j) {
      if j < |run| - 1 {
        RemovesMarkOfSnoc(ops, run, i, j);
      }
    }
  }

  /** So no run panics when there is a finalize function, or when every SetUnsafe asks for
      none. */
  lemma NoPanic<K, V>(ops: KeyOps<K>, run: seq<Op<K, V>>)
    requires ops.hasFinalize || forall i :: 0 <= i < |run| && run[i].SetUnsafe? ==> run[i].noFinalizeKey
    ensures RunOps(ops, run).Done?
  {
    RunPanicsIff(ops, run);
    forall i: nat, j: nat ensures ops.hasFinalize || !RemovesMarkOf(ops, run, i, j) {
      if i < j < |run| {
        assert run[..j][i] == run[i];
      }
    }
  }

  // ---- the life of stored keys ---------------------------------------------

  /** The slots that hold this very key, marked to be finalized. */
  ghost function MarkedSlots<K, V>(t: Table<K, V>, k: K): set<MapHash> {
    set s | s in t && t[s].finalize && t[s].key == k
  }

  /** An operation that stores this very key, to be finalized: a copy of its own, or its own. */
  ghost predicate Stores<K, V>(ops: KeyOps<K>, t: Table<K, V>, op: Op<K, V>, k: K) {
    IsSet(op) && Find(ops, t, op.k).None? && ToFinalize(ops, op) && KeyToStore(ops, op) == k
  }

  /** How often an operation finalizes this very key: Delete the one it removes, Reset all. */
  ghost function FinalizesKey<K, V>(ops: KeyOps<K>, t: Table<K, V>, op: Op<K, V>, k: K): nat {
    match op
    case Delete(k') =>
      var f := Find(ops, t, k');
      if f.Some? && f.value in MarkedSlots(t, k) then 1 else 0
    case Reset => |MarkedSlots(t, k)|
    case _ => 0
  }

  /** How often this key was stored, finalized, and forgotten by Reallocate, over a run. */
  ghost function TimesStored<K, V>(ops: KeyOps<K>, run: seq<Op<K, V>>, k: K): nat {
    if run == [] then 0
    else
      var before, op := run[..|run| - 1], run[|run| - 1];
      TimesStored(ops, before, k) +
      match RunOps(ops, before) { case Done(t) => if Stores(ops, t, op, k) then 1 else 0 case Panicked => 0 }
  }

  ghost function TimesFinalized<K, V>(ops: KeyOps<K>, run: seq<Op<K, V>>, k: K): nat {
    if run == [] then 0
    else
      var before, op := run[..|run| - 1], run[|run| - 1];
      TimesFinalized(ops, before, k) +
      match RunOps(ops, before) {
        case Done(t) => if Apply(ops, t, op).Done? then FinalizesKey(ops, t, op, k) else 0
        case Panicked => 0
      }
  }

  ghost function TimesForgotten<K, V>(ops: KeyOps<K>, run: seq<Op<K, V>>, k: K): nat {
    if run == [] then 0
    else
      var before, op := run[..|run| - 1], run[|run| - 1];
      TimesForgotten(ops, before, k) +
      match RunOps(ops, before) { case Done(t) => if op.Reallocate? then |MarkedSlots(t, k)| else 0 case Panicked => 0 }
  }

  /** Writing an entry that keeps the key and mark of the one it replaces. */
  lemma PutMarks<K, V>(t: Table<K, V>, s: MapHash, e: Entry<K, V>, k: K)
    requires s in t ==> t[s].key == e.key && t[s].finalize == e.finalize
    ensures |MarkedSlots(t[s := e], k)| == |MarkedSlots(t, k)| + if s !in t && e.finalize && e.key == k then 1 else 0
  {
    var m, m' := MarkedSlots(t, k), MarkedSlots(t[s := e], k);
    if s !in t && e.finalize && e.key == k {
      assert m' == m + {s};
    } else {
      assert m' == m;
    }
  }

  lemma RemoveMarks<K, V>(t: Table<K, V>, s: MapHash, k: K)
    ensures |MarkedSlots(t, k)| == |MarkedSlots(t - {s}, k)| + if s in MarkedSlots(t, k) then 1 else 0
  {
    var m, m' := MarkedSlots(t, k), MarkedSlots(t - {s}, k);
    assert m' == m - {s};
  }

  lemma SetMarks<K, V>(ops: KeyOps<K>, t: Table<K, V>, k': K, v: V, copyKey: bool, finalizeKey: bool, k: K)
    requires |t| < SLOTS
    ensures |MarkedSlots(SetTable(ops, t, k', v, copyKey, finalizeKey), k)|
         == |MarkedSlots(t, k)| + if Find(ops, t, k').None? && finalizeKey && (if copyKey then ops.copy(k') else k') == k then 1 else 0
  {
    ProbeTerminates(ops, t, k');
    var s := Slot(ops.hash(k'), ProbeFrom(ops, t, k', 0));
    if s in t {
      PutMarks(t, s, Entry(t[s].key, t[s].finalize, v), k);
    } else {
      PutMarks(t, s, Entry(NewKey(ops, k', copyKey), finalizeKey, v), k);
    }
  }

  lemma DeleteMarks<K, V>(ops: KeyOps<K>, t: Table<K, V>, k': K, k: K)
    ensures |MarkedSlots(t, k)| == |MarkedSlots(DeleteTable(ops, t, k'), k)| + FinalizesKey(ops, t, Delete(k'), k)
  {
    var f := Find(ops, t, k');
    if f.Some? {
      RemoveMarks(t, f.value, k);
    }
  }

  /** What one operation stores, finalizes and forgets is what its table gains and loses. */
  lemma MarksConserved<K, V>(ops: KeyOps<K>, t: Table<K, V>, op: Op<K, V>, k: K)
    requires |t| < SLOTS
    ensures |MarkedSlots(t, k)| + (if Stores(ops, t, op, k) then 1 else 0)
         == |MarkedSlots(Applied(ops, t, op), k)| + FinalizesKey(ops, t, op, k) + (if op.Reallocate? then |MarkedSlots(t, k)| else 0)
  {
    match op
    case Set(k', v) => SetMarks(ops, t, k', v, true, ops.hasFinalize, k);
    case SetUnsafe(k', v, noCopyKey, noFinalizeKey) => SetMarks(ops, t, k', v, !noCopyKey, !noFinalizeKey, k);
    case Delete(k') => DeleteMarks(ops, t, k', k);
    case _ => assert MarkedSlots(Applied(ops, t, op), k) == {};
  }

  /** No key is lost or finalized twice: over any run that does not panic, faithful or not,
      every time a key was stored to be finalized it has been finalized since, or is still
      stored, or was forgotten by Reallocate, which finalizes nothing. */
  lemma {:induction false} KeysAreConserved<K, V>(ops: KeyOps<K>, run: seq<Op<K, V>>, k: K)
    requires HasRoom(ops, run) && RunOps(ops, run).Done?
    ensures TimesStored(ops, run, k)
         == TimesFinalized(ops, run, k) + TimesForgotten(ops, run, k) + |MarkedSlots(RunOps(ops, run).table, k)|
  {
    if run == [] {
      assert MarkedSlots(RunOps(ops, run).table, k) == {};
    } else {
      var before := run[..|run| - 1];
      KeysAreConserved(ops, before, k);
      MarksConserved(ops, RunOps(ops, before).table, run[|run| - 1], k);
    }
  }

  /** Without a finalize function nothing is ever finalized, whether the run panics or not. */
  lemma {:induction false} NothingFinalized<K, V>(ops: KeyOps<K>, run: seq<Op<K, V>>, k: K)
    requires !ops.hasFinalize
    ensures TimesFinalized(ops, run, k) == 0
  {
    if run != [] {
      var before, op := run[..|run| - 1], run[|run| - 1];
      NothingFinalized(ops, before, k);
      if RunOps(ops, before).Done? {
        FinalizingCalls(ops, RunOps(ops, before).table, op, k);
      }
    }
  }

  lemma FinalizingCalls<K, V>(ops: KeyOps<K>, t: Table<K, V>, op: Op<K, V>, k: K)
    ensures FinalizesKey(ops, t, op, k) > 0 ==> CallsFinalize(ops, t, op)
  {
    if op.Delete? && FinalizesKey(ops, t, op, k) > 0 {
      assert Find(ops, t, op.k).value in Removed(ops, t, op) * Marked(t);
    } else if op.Reset? && FinalizesKey(ops, t, op, k) > 0 {
      var s :| s in MarkedSlots(t, k);
      assert s in Removed(ops, t, op) * Marked(t);
    }
  }

  // ---- the run that Delete breaks ------------------------------------------

  /** Integer keys that all hash to the last slot, so that the second key wraps to slot 0. */
  const COLLIDING: KeyOps<int> := KeyOps(_ => SLOTS - 1, (a, b) => a == b, a => a, false)

  const LAST: MapHash := SLOTS - 1

  const FIRST_AND_SECOND: Table<int, int> := map[LAST := Entry(1, false, 10), 0 := Entry(2, false, 20)]
  const SECOND_ONLY: Table<int, int> := map[0 := Entry(2, false, 20)]

  /** Two colliding keys, and the deletion of the first. */
  const LOSING: seq<Op<int, int>> := [Set(1, 10), Set(2, 20), Delete(1)]

  /** The second key is set again, deleted, and the first is set again. */
  const REVIVING: seq<Op<int, int>> := LOSING + [Set(2, 21)] + [Delete(2)] + [Set(1, 11)]

  lemma RunSnoc<K, V>(ops: KeyOps<K>, run: seq<Op<K, V>>, op: Op<K, V>)
    requires RunOps(ops, run).Done?
    ensures RunOps(ops, run + [op]) == Apply(ops, RunOps(ops, run).table, op)
  {
    assert (run + [op])[..|run|] == run;
  }

  lemma LosingTables()
    ensures RunOps(COLLIDING, LOSING[..2]) == Done(FIRST_AND_SECOND)
    ensures RunOps(COLLIDING, LOSING) == Done(SECOND_ONLY)
    ensures Find(COLLIDING, FIRST_AND_SECOND, 1) == Some(LAST)
  {
    var ops := COLLIDING;
    var t0: Table<int, int> := map[];
    var t1: Table<int, int> := map[LAST := Entry(1, false, 10)];
    assert Slot(LAST, 0) == LAST && Slot(LAST, 1) == 0;
    ProbeIsFirst(ops, t0, 1, 0, 0);
    ProbeIsFirst(ops, t1, 2, 0, 1);
    ProbeIsFirst(ops, FIRST_AND_SECOND, 1, 0, 0);
    RunSnoc(ops, [], LOSING[0]);
    RunSnoc(ops, [LOSING[0]], LOSING[1]);
    RunSnoc(ops, LOSING[..2], LOSING[2]);
    assert [] + [LOSING[0]] == [LOSING[0]] && [LOSING[0]] + [LOSING[1]] == LOSING[..2];
    assert LOSING[..2] + [LOSING[2]] == LOSING;
  }

  lemma LosingLatest()
    ensures Latest(COLLIDING, LOSING, 2) == Some(Held(20, false))
  {
    var ops := COLLIDING;
    assert LOSING[..2] == [LOSING[0]] + [LOSING[1]] && LOSING == LOSING[..2] + [LOSING[2]];
    LatestSnoc(ops, [], LOSING[0], 2);
    assert [] + [LOSING[0]] == [LOSING[0]];
    LatestSnoc(ops, [LOSING[0]], LOSING[1], 2);
    LatestSnoc(ops, LOSING[..2], LOSING[2], 2);
  }

  /** Deleting the first of two colliding keys hides the second. */
  lemma DeleteLoses()
    ensures Lawful(COLLIDING)
    ensures Latest(COLLIDING, LOSING, 2) == Some(Held(20, false))
    ensures RunOps(COLLIDING, LOSING) == Done(SECOND_ONLY) && Lookup(COLLIDING, SECOND_ONLY, 2) == None
    ensures !PathsKept(COLLIDING, LOSING)
  {
    LosingTables();
    LosingLatest();
    LosingCuts();
    assert Slot(LAST, 0) == LAST;
    ProbeIsFirst(COLLIDING, SECOND_ONLY, 2, 0, 0);
  }

  lemma LosingCuts()
    ensures !PathsKept(COLLIDING, LOSING)
  {
    LosingTables();
    assert !DeleteFaithful(COLLIDING, FIRST_AND_SECOND, 1) by {
      assert OnPath(LAST, 0, LAST);
    }
  }

  const SECOND_AGAIN: Table<int, int> := SECOND_ONLY[LAST := Entry(2, false, 21)]
  const FIRST_AGAIN: Table<int, int> := SECOND_ONLY[LAST := Entry(1, false, 11)]

  /** The first key comes back into the slot that hid the second. */
  lemma RevivingTables(lost: seq<Op<int, int>>)
    requires RunOps(COLLIDING, lost) == Done(SECOND_ONLY)
    ensures RunOps(COLLIDING, lost + [Set(2, 21)] + [Delete(2)] + [Set(1, 11)]) == Done(FIRST_AGAIN)
  {
    var again := lost + [Set(2, 21)];
    SetAgain(lost);
    DeletedAgain(again);
    FirstSetAgain(again + [Delete(2)]);
  }

  lemma SetAgain(lost: seq<Op<int, int>>)
    requires RunOps(COLLIDING, lost) == Done(SECOND_ONLY)
    ensures RunOps(COLLIDING, lost + [Set(2, 21)]) == Done(SECOND_AGAIN)
  {
    assert Slot(LAST, 0) == LAST;
    ProbeIsFirst(COLLIDING, SECOND_ONLY, 2, 0, 0);
    RunSnoc(COLLIDING, lost, Set(2, 21));
  }

  lemma FirstSetAgain(run: seq<Op<int, int>>)
    requires RunOps(COLLIDING, run) == Done(SECOND_ONLY)
    ensures RunOps(COLLIDING, run + [Set(1, 11)]) == Done(FIRST_AGAIN)
  {
    assert Slot(LAST, 0) == LAST;
    ProbeIsFirst(COLLIDING, SECOND_ONLY, 1, 0, 0);
    RunSnoc(COLLIDING, run, Set(1, 11));
  }

  lemma DeletedAgain(again: seq<Op<int, int>>)
    requires RunOps(COLLIDING, again) == Done(SECOND_AGAIN)
    ensures RunOps(COLLIDING, again + [Delete(2)]) == Done(SECOND_ONLY)
  {
    assert Slot(LAST, 0) == LAST;
    ProbeIsFirst(COLLIDING, SECOND_AGAIN, 2, 0, 0);
    RunSnoc(COLLIDING, again, Delete(2));
    assert SECOND_AGAIN - {LAST} == SECOND_ONLY;
  }

  lemma RevivingLatest(lost: seq<Op<int, int>>)
    ensures Latest(COLLIDING, lost + [Set(2, 21)] + [Delete(2)] + [Set(1, 11)], 2) == None
  {
    LatestSnoc(COLLIDING, lost + [Set(2, 21)], Delete(2), 2);
    LatestSnoc(COLLIDING, lost + [Set(2, 21)] + [Delete(2)], Set(1, 11), 2);
  }

  lemma SecondIsBack()
    ensures Lookup(COLLIDING, FIRST_AGAIN, 2) == Some(20)
  {
    assert Slot(LAST, 0) == LAST && Slot(LAST, 1) == 0;
    ProbeIsFirst(COLLIDING, FIRST_AGAIN, 2, 0, 1);
  }

  /** And later it can be back with a value that was deleted since. */
  lemma DeleteRevives()
    ensures Latest(COLLIDING, REVIVING, 2) == None
    ensures RunOps(COLLIDING, REVIVING) == Done(FIRST_AGAIN) && Lookup(COLLIDING, FIRST_AGAIN, 2) == Some(20)
  {
    LosingTables();
    RevivingTables(LOSING);
    RevivingLatest(LOSING);
    SecondIsBack();
  }

  // ---- a run that panics, and one that forgets a key -----------------------

  /** A key is stored to be finalized in a map that cannot finalize, and then deleted. */
  const PANICKING: seq<Op<int, int>> := [SetUnsafe(1, 10, false, false), Delete(1)]

  lemma SetThenDeletePanics()
    ensures Lawful(COLLIDING) && HasRoom(COLLIDING, PANICKING) && PathsKept(COLLIDING, PANICKING)
    ensures RunOps(COLLIDING, PANICKING) == Panicked && Misused(COLLIDING, PANICKING)
  {
    var ops, set1 := COLLIDING, [PANICKING[0]];
    var t: Table<int, int> := map[LAST := Entry(1, true, 10)];
    ProbeIsFirst<int, int>(ops, map[], 1, 0, 0);
    RunSnoc(ops, [], PANICKING[0]);
    assert [] + set1 == set1 && set1 + [PANICKING[1]] == PANICKING;
    assert RunOps(ops, set1) == Done(t);
    ProbeIsFirst(ops, t, 1, 0, 0);
    assert LAST in Removed(ops, t, PANICKING[1]) * Marked(t);
    RunSnoc(ops, set1, PANICKING[1]);
    ShortRunHasRoom(ops, PANICKING);
    assert PANICKING[..1] == set1 && set1[..0] == [];
    assert PathsKept(ops, set1);
    RunAgrees(ops, PANICKING);
  }

  const FINALIZING: KeyOps<int> := COLLIDING.(hasFinalize := true)

  const FORGETTING: seq<Op<int, int>> := [Set(1, 10), Reallocate]

  /** A key that was to be finalized is stored, and Reallocate drops it. */
  lemma ReallocateForgets()
    ensures RunOps(FINALIZING, FORGETTING) == Done(map[])
    ensures TimesStored(FINALIZING, FORGETTING, 1) == 1 && TimesFinalized(FINALIZING, FORGETTING, 1) == 0
    ensures TimesForgotten(FINALIZING, FORGETTING, 1) == 1
  {
    var ops, set1 := FINALIZING, [FORGETTING[0]];
    var t: Table<int, int> := map[LAST := Entry(1, true, 10)];
    ProbeIsFirst<int, int>(ops, map[], 1, 0, 0);
    RunSnoc(ops, [], FORGETTING[0]);
    assert [] + set1 == set1 && set1 + [FORGETTING[1]] == FORGETTING;
    RunSnoc(ops, set1, FORGETTING[1]);
    assert FORGETTING[..1] == set1 && set1[..0] == [];
    assert RunOps(ops, set1) == Done(t);
    ShortRunHasRoom(ops, FORGETTING);
    KeysAreConserved(ops, FORGETTING, 1);
  }

  // ---- the map -------------------------------------------------------------

  /** The keys of the given entries that asked to be finalized, in order. */
  function FinalizedKeys<K, V>(t: Table<K, V>, order: seq<MapHash>): seq<K>
    requires forall h :: h in order ==> h in t
  {
    if order == [] then []
    else
      var h := order[|order| - 1];
      FinalizedKeys(t, order[..|order| - 1]) + if t[h].finalize then [t[h].key] else []
  }

  ghost function Among<T>(order: seq<T>, m: set<T>): set<T> {
    set h | h in m && h in order
  }

  lemma AmongLast<T>(order: seq<T>, m: set<T>)
    requires order != [] && Distinct(order)
    ensures var front, h := order[..|order| - 1], order[|order| - 1];
            |Among(order, m)| == |Among(front, m)| + if h in m then 1 else 0
  {
    var front, h := order[..|order| - 1], order[|order| - 1];
    assert order == front + [h] && h !in front;
    if h in m {
      assert Among(order, m) == Among(front, m) + {h};
    } else {
      assert Among(order, m) == Among(front, m);
    }
  }

  /** Finalizing the marked keys of distinct slots finalizes a key once for each slot. */
  lemma {:induction false} FinalizedOncePerSlot<K, V>(t: Table<K, V>, order: seq<MapHash>, k: K)
    requires Distinct(order) && forall h :: h in order ==> h in t
    ensures multiset(FinalizedKeys(t, order))[k] == |Among(order, MarkedSlots(t, k))|
  {
    if order != [] {
      var front, h := order[..|order| - 1], order[|order| - 1];
      FinalizedOncePerSlot(t, front, k);
      AmongLast(order, MarkedSlots(t, k));
    }
  }

  /** So Reset, whatever its order, finalizes what the run model says. */
  lemma ResetFinalizes<K, V>(ops: KeyOps<K>, t: Table<K, V>, order: seq<MapHash>, k: K)
    requires Distinct(order) && forall h :: h in order <==> h in t
    ensures multiset(FinalizedKeys(t, order))[k] == FinalizesKey(ops, t, Op.Reset, k)
  {
    FinalizedOncePerSlot(t, order, k);
    assert Among(order, MarkedSlots(t, k)) == MarkedSlots(t, k);
  }

  /** Reset has removed the entries in order from t0, and t is left. */
  ghost predicate Partway<K, V>(t0: Table<K, V>, t: Table<K, V>, order: seq<MapHash>) {
    && Distinct(order)
    && (forall h :: h in order ==> h in t0 && h !in t)
    && (forall h :: h in t0 ==> h in order || h in t)
    && (forall h :: h in t ==> h in t0 && t[h] == t0[h])
  }

  lemma PartwayStep<K, V>(t0: Table<K, V>, t: Table<K, V>, order: seq<MapHash>, h: MapHash)
    requires Partway(t0, t, order) && h in t
    ensures Partway(t0, t - {h}, order + [h]) && |t - {h}| < |t|
    ensures FinalizedKeys(t0, order + [h]) == FinalizedKeys(t0, order) + if t[h].finalize then [t[h].key] else []
  {
    var order' := order + [h];
    assert order'[..|order'| - 1] == order;
    assert (t - {h}).Keys == t.Keys - {h};
    assert |(t - {h}).Keys| < |t.Keys|;
  }

  ghost predicate Unmarked<K, V>(t: Table<K, V>, order: seq<MapHash>)
    requires forall h :: h in order ==> h in t
  {
    forall h :: h in order ==> !t[h].finalize
  }

  lemma ResetFinishes<K, V>(ops: KeyOps<K>, t0: Table<K, V>, order: seq<MapHash>)
    requires Partway(t0, map[], order) && (ops.hasFinalize || Unmarked(t0, order))
    ensures Apply(ops, t0, Op.Reset) == Done(map[])
  {
  }

  /** Deleting the key found in s panics exactly when its mark asks for a function that is not there. */
  lemma DeletePanicsIff<K, V>(ops: KeyOps<K>, t: Table<K, V>, k: K, s: MapHash)
    requires Find(ops, t, k) == Some(s)
    ensures CallsFinalize(ops, t, Op.Delete(k)) <==> t[s].finalize
  {
    if t[s].finalize {
      assert s in Removed(ops, t, Op.Delete(k)) * Marked(t);
    }
  }

  class Map<K(!new), V> {
    const ops: KeyOps<K>
    var lookup: Table<K, V>
    /** The keys passed to the finalize function so far. */
    var finalized: seq<K>

    constructor (ops: KeyOps<K>)
      ensures this.ops == ops && lookup == map[] && finalized == []
    {
      this.ops := ops;
      lookup := map[];
      finalized := [];
    }

    method Get(k: K) returns (r: Option<V>)
      requires |lookup| < SLOTS
      ensures r == Lookup(ops, lookup, k)
    {
      var hash := ops.hash(k);
      ghost var i := 0;
      ProbeTerminates(ops, lookup, k);
      while hash in lookup
        invariant 0 <= i < SLOTS && hash == Slot(ops.hash(k), i)
        invariant ProbeFrom(ops, lookup, k, 0) == ProbeFrom(ops, lookup, k, i) < SLOTS
        decreases SLOTS - i
      {
        var entry := lookup[hash];
        if ops.equals(entry.key, k) {
          return Some(entry.value);
        }
        hash := Next(hash);
        i := i + 1;
      }
      return None;
    }

    method Contains(k: K) returns (found: bool)
      requires |lookup| < SLOTS
      ensures found == Lookup(ops, lookup, k).Some?
    {
      var r := Get(k);
      return r.Some?;
    }

    method Set(k: K, v: V)
      requires |lookup| < SLOTS
      modifies this`lookup
      ensures Apply(ops, old(lookup), Op.Set(k, v)) == Done(lookup)
    {
      SetEntry(k, v, true, ops.hasFinalize);
    }

    method SetUnsafe(k: K, v: V, noCopyKey: bool, noFinalizeKey: bool)
      requires |lookup| < SLOTS
      modifies this`lookup
      ensures Apply(ops, old(lookup), Op.SetUnsafe(k, v, noCopyKey, noFinalizeKey)) == Done(lookup)
    {
      SetEntry(k, v, !noCopyKey, !noFinalizeKey);
    }

    method SetEntry(k: K, v: V, copyKey: bool, finalizeKey: bool)
      requires |lookup| < SLOTS
      modifies this`lookup
      ensures lookup == SetTable(ops, old(lookup), k, v, copyKey, finalizeKey)
    {
      var hash := ops.hash(k);
      ghost var i := 0;
      ProbeTerminates(ops, lookup, k);
      while hash in lookup
        invariant 0 <= i < SLOTS && hash == Slot(ops.hash(k), i)
        invariant lookup == old(lookup)
        invariant ProbeFrom(ops, lookup, k, 0) == ProbeFrom(ops, lookup, k, i) < SLOTS
        decreases SLOTS - i
      {
        var entry := lookup[hash];
        if ops.equals(entry.key, k) {
          lookup := lookup[hash := Entry(entry.key, entry.finalize, v)];
          return;
        }
        hash := Next(hash);
        i := i + 1;
      }
      lookup := lookup[hash := Entry(NewKey(ops, k, copyKey), finalizeKey, v)];
    }

    /** The slot is vacated before the key is finalized, and so also when that panics. */
    method Delete(k: K) returns (panicked: bool)
      requires |lookup| < SLOTS
      modifies this
      ensures lookup == DeleteTable(ops, old(lookup), k)
      ensures Apply(ops, old(lookup), Op.Delete(k)) == if panicked then Panicked else Done(lookup)
      ensures var f := Find(ops, old(lookup), k);
              finalized == old(finalized) +
                if f.Some? && old(lookup)[f.value].finalize && !panicked then [old(lookup)[f.value].key] else []
    {
      var hash := ops.hash(k);
      ghost var i := 0;
      ProbeTerminates(ops, lookup, k);
      ProbeResult(ops, lookup, k, 0);
      while hash in lookup
        invariant 0 <= i < SLOTS && hash == Slot(ops.hash(k), i)
        invariant lookup == old(lookup) && finalized == old(finalized)
        invariant ProbeFrom(ops, lookup, k, 0) == ProbeFrom(ops, lookup, k, i) < SLOTS
        decreases SLOTS - i
      {
        var entry := lookup[hash];
        if ops.equals(entry.key, k) {
          DeletePanicsIff(ops, lookup, k, hash);
          panicked := RemoveMapKey(hash);
          return;
        }
        hash := Next(hash);
        i := i + 1;
      }
      return false;
    }

    /** Calls the finalize function, which there has to be. */
    method CallFinalize(k: K)
      requires ops.hasFinalize
      modifies this`finalized
      ensures finalized == old(finalized) + [k]
    {
      finalized := finalized + [k];
    }

    method RemoveMapKey(hash: MapHash) returns (panicked: bool)
      requires hash in lookup
      modifies this
      ensures lookup == old(lookup) - {hash}
      ensures panicked <==> old(lookup)[hash].finalize && !ops.hasFinalize
      ensures finalized == old(finalized) +
                if old(lookup)[hash].finalize && ops.hasFinalize then [old(lookup)[hash].key] else []
    {
      var entry := lookup[hash];
      lookup := lookup - {hash};
      if entry.finalize {
        if !ops.hasFinalize {
          return true;
        }
        CallFinalize(entry.key);
      }
      return false;
    }

    /** Removes the entries in whatever order they come, finalizing each marked key once; it
        stops at the first marked key when there is no finalize function. */
    method Reset() returns (panicked: bool, ghost order: seq<MapHash>)
      modifies this
      ensures Apply(ops, old(lookup), Op.Reset) == if panicked then Panicked else Done(lookup)
      ensures Partway(old(lookup), lookup, order)
      ensures panicked ==> order != [] && old(lookup)[order[|order| - 1]].finalize && Unmarked(old(lookup), order[..|order| - 1])
      ensures finalized == old(finalized) + if ops.hasFinalize then FinalizedKeys(old(lookup), order) else []
    {
      order, panicked := [], false;
      while lookup != map[]
        invariant Partway(old(lookup), lookup, order)
        invariant ops.hasFinalize || Unmarked(old(lookup), order)
        invariant finalized == old(finalized) + if ops.hasFinalize then FinalizedKeys(old(lookup), order) else []
        decreases |lookup|
      {
        var h :| h in lookup;
        PartwayStep(old(lookup), lookup, order, h);
        ghost var last := if lookup[h].finalize then [lookup[h].key] else [];
        Reassociate(old(finalized), FinalizedKeys(old(lookup), order), last);
        panicked := RemoveMapKey(h);
        ghost var removed := order;
        order := order + [h];
        if panicked {
          assert order[..|order| - 1] == removed;
          assert h in Removed(ops, old(lookup), Op.Reset) * Marked(old(lookup));
          return;
        }
      }
      ResetFinishes(ops, old(lookup), order);
    }

    method Reallocate()
      modifies this`lookup
      ensures Apply(ops, old(lookup), Op.Reallocate) == Done(lookup)
    {
      lookup := map[];
    }
  }
}
