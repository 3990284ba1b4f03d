/**
 The pool of byte slices and AppendByte (pool/bytes.go over pool/bucketized.go and
 pool/object.go), with the slices' backing arrays on the heap, so that sharing shows.
 */
module BytesPools {
  import opened PoolBuckets

  type Byte = b: int | 0 <= b < 256

  /** A Go slice that begins where its array begins. */
  datatype Slice = Nil | Slice(arr: array<Byte>, len: nat) {

    predicate Valid() {
      Slice? ==> len <= arr.Length
    }

    function Len(): nat {
      if Nil? then 0 else len
    }

    function Cap(): nat {
      if Nil? then 0 else arr.Length
    }

    /** s[:0] */
    function Emptied(): Slice {
      if Nil? then Nil else Slice(arr, 0)
    }

    ghost function Backing(): set<array<Byte>> {
      if Nil? then {} else {arr}
    }

    ghost function Bytes(): seq<Byte>
      requires Valid()
      reads Backing()
    {
      if Nil? then [] else arr[..len]
    }
  }

  /** The built-in append: in place when there is room, into a new array otherwise. */
  method Append(s: Slice, b: Byte) returns (r: Slice)
    requires s.Valid()
    modifies s.Backing()
    ensures r.Slice? && r.Valid() && r.Bytes() == old(s.Bytes()) + [b]
    ensures if s.Len() < s.Cap() then r.arr == s.arr else fresh(r.arr)
  {
    var n := s.Len();
    if n < s.Cap() {
      s.arr[n] := b;
      return Slice(s.arr, n + 1);
    }
    var grown := new Byte[2 * n + 1](_ => 0);
    for i := 0 to n
      invariant s.Bytes() == old(s.Bytes()) && grown[..i] == s.Bytes()[..i]
    {
      grown[i] := s.arr[i];
    }
    grown[n] := b;
    assert grown[..n + 1] == grown[..n] + [b];
    return Slice(grown, n + 1);
  }

  /** append of several bytes: in place when they fit, into a new array otherwise. */
  method AppendMany(s: Slice, bs: seq<Byte>) returns (r: Slice)
    requires s.Valid()
    modifies s.Backing()
    ensures r.Valid() && r.Bytes() == old(s.Bytes()) + bs
    ensures if s.Len() + |bs| <= s.Cap() then r.Backing() == s.Backing() else fresh(r.Backing())
  {
    var n := s.Len();
    if n + |bs| <= s.Cap() {
      if s.Nil? {
        return Nil;
      }
      for i := 0 to |bs|
        invariant s.arr[..n] == old(s.Bytes()) && s.arr[n..n + i] == bs[..i]
      {
        s.arr[n + i] := bs[i];
      }
      assert s.arr[..n + |bs|] == s.arr[..n] + s.arr[n..n + |bs|];
      return Slice(s.arr, n + |bs|);
    }
    var was := if s.Nil? then [] else s.arr[..n];
    var grown := new Byte[2 * (n + |bs|)](i requires i >= 0 => if i < n then was[i] else if i < n + |bs| then bs[i - n] else 0);
    assert grown[..n + |bs|] == was + bs;
    return Slice(grown, n + |bs|);
  }

  // ---- what a pool stores --------------------------------------------------

  ghost function Arrays(stores: seq<seq<Slice>>): set<array<Byte>> {
    set i, p | 0 <= i < |stores| && 0 <= p < |stores[i]| && stores[i][p].Slice? :: stores[i][p].arr
  }

  /** No array is stored twice. */
  ghost predicate NoneShared(stores: seq<seq<Slice>>) {
    forall i, j, p, q ::
      (&& 0 <= i < |stores| && 0 <= j < |stores| && 0 <= p < |stores[i]| && 0 <= q < |stores[j]|
       && stores[i][p].Slice? && stores[j][q].Slice? && stores[i][p].arr == stores[j][q].arr)
        ==> i == j && p == q
  }

  lemma StoredIn(stores: seq<seq<Slice>>, i: nat, p: nat)
    requires i < |stores| && p < |stores[i]| && stores[i][p].Slice?
    ensures stores[i][p].arr in Arrays(stores)
  {
  }

  lemma AddStored(stores: seq<seq<Slice>>, i: nat, s: Slice)
    requires i < |stores| && NoneShared(stores) && s.Backing() !! Arrays(stores)
    ensures var stores' := stores[i := stores[i] + [s]];
            NoneShared(stores') && Arrays(stores') == Arrays(stores) + s.Backing()
  {
    AddStoredOnce(stores, i, s);
    AddStoredArrays(stores, i, s);
  }

  lemma AddStoredOnce(stores: seq<seq<Slice>>, i: nat, s: Slice)
    requires i < |stores| && NoneShared(stores) && s.Backing() !! Arrays(stores)
    ensures NoneShared(stores[i := stores[i] + [s]])
  {
    forall j, p | 0 <= j < |stores| && 0 <= p < |stores[j]| && stores[j][p].Slice?
      ensures stores[j][p].arr !in s.Backing()
    {
      StoredIn(stores, j, p);
    }
  }

  lemma AddStoredArrays(stores: seq<seq<Slice>>, i: nat, s: Slice)
    requires i < |stores|
    ensures Arrays(stores[i := stores[i] + [s]]) == Arrays(stores) + s.Backing()
  {
    var stores' := stores[i := stores[i] + [s]];
    assert stores'[i][|stores[i]|] == s;
    forall a | a in Arrays(stores') ensures a in Arrays(stores) + s.Backing() {
      var j, p :| 0 <= j < |stores'| && 0 <= p < |stores'[j]| && stores'[j][p].Slice? && stores'[j][p].arr == a;
      assert p < |stores[j]| ==> stores[j][p].arr == a;
    }
    forall a | a in Arrays(stores) ensures a in Arrays(stores') {
      var j, p :| 0 <= j < |stores| && 0 <= p < |stores[j]| && stores[j][p].Slice? && stores[j][p].arr == a;
      assert stores'[j][p].arr == a;
    }
  }

  lemma TakeStored(stores: seq<seq<Slice>>, i: nat)
    requires i < |stores| && stores[i] != [] && NoneShared(stores)
    ensures var stores' := stores[i := stores[i][1..]];
            NoneShared(stores') && Arrays(stores') == Arrays(stores) - stores[i][0].Backing()
  {
    var stores', s := stores[i := stores[i][1..]], stores[i][0];
    forall j, p | 0 <= j < |stores'| && 0 <= p < |stores'[j]|
      ensures stores'[j][p] == stores[j][if j == i then p + 1 else p]
    {
    }
    forall a | a in Arrays(stores') ensures a in Arrays(stores) - s.Backing() {
      var j, p :| 0 <= j < |stores'| && 0 <= p < |stores'[j]| && stores'[j][p].Slice? && stores'[j][p].arr == a;
      assert stores[j][if j == i then p + 1 else p].arr == a;
    }
    forall a | a in Arrays(stores) - s.Backing() ensures a in Arrays(stores') {
      var j, p :| 0 <= j < |stores| && 0 <= p < |stores[j]| && stores[j][p].Slice? && stores[j][p].arr == a;
      assert stores'[j][if j == i then p - 1 else p].arr == a;
    }
  }

  /** What was added has exactly this capacity. */
  ghost predicate Filled(before: seq<Slice>, after: seq<Slice>, capacity: int) {
    before <= after && forall p :: |before| <= p < |after| ==> after[p].Slice? && after[p].Cap() == capacity
  }

  /** Nothing is taken for less than one byte. */
  function Taken(stores: seq<seq<Slice>>, caps: seq<int>, capacity: int): seq<seq<Slice>> {
    if capacity < 1 then stores else TakenFrom(stores, caps, capacity)
  }

  class BytesPool {
    const caps: seq<int>
    const sizes: seq<nat>
    var stores: seq<seq<Slice>>

    /** Stored slices are empty and as large as their bucket says, and share nothing. */
    ghost predicate Valid()
      reads this
    {
      && Ascending(caps) && |sizes| == |caps| && |stores| == |caps|
      && (forall i :: 0 <= i < |stores| ==> |stores[i]| <= sizes[i])
      && (forall i, p :: 0 <= i < |stores| && 0 <= p < |stores[i]| ==> stores[i][p].Len() == 0 && stores[i][p].Cap() >= caps[i])
      && NoneShared(stores)
    }

    ghost function Stored(): set<array<Byte>>
      reads this
    {
      Arrays(stores)
    }

    constructor (caps: seq<int>, sizes: seq<nat>)
      requires Ascending(caps) && |sizes| == |caps|
      ensures Valid() && this.caps == caps && this.sizes == sizes && Stored() == {}
    {
      this.caps, this.sizes := caps, sizes;
      stores := seq(|caps|, _ => []);
    }

    /** make([]byte, 0, capacity), which panics when the capacity is negative */
    static method Alloc(capacity: int) returns (s: Slice)
      requires capacity >= 0
      ensures s.Len() == 0 && s.Cap() == capacity
      ensures s.Slice? && fresh(s.arr)
    {
      var arr := new Byte[capacity](_ => 0);
      s := Slice(arr, 0);
    }

    /** Put one slice into bucket i if it has room. */
    method Store(i: nat, s: Slice)
      requires Valid() && i < |caps| && s.Len() == 0 && s.Cap() >= caps[i] && s.Backing() !! Stored()
      modifies this
      ensures Valid()
      ensures if |old(stores)[i]| < sizes[i]
              then stores == old(stores)[i := old(stores)[i] + [s]] && Stored() == old(Stored()) + s.Backing()
              else stores == old(stores)
    {
      if |stores[i]| < sizes[i] {
        AddStored(stores, i, s);
        stores := stores[i := stores[i] + [s]];
      }
    }

    /** Fills every bucket; to fill one of negative capacity panics. */
    method Init() returns (panicked: bool)
      requires Valid()
      modifies this
      ensures Valid() && fresh(Stored() - old(Stored()))
      ensures panicked <==> exists i :: 0 <= i < |caps| && caps[i] < 0 && |old(stores)[i]| < sizes[i]
      ensures !panicked ==> forall i :: 0 <= i < |stores| ==> |stores[i]| == sizes[i] && Filled(old(stores)[i], stores[i], caps[i])
    {
      for i := 0 to |caps|
        invariant Valid() && fresh(Stored() - old(Stored()))
        invariant forall j :: 0 <= j < i ==>
                    |stores[j]| == sizes[j] && (caps[j] >= 0 || |old(stores)[j]| == sizes[j]) && Filled(old(stores)[j], stores[j], caps[j])
        invariant forall j :: i <= j < |caps| ==> stores[j] == old(stores)[j]
      {
        if caps[i] < 0 && |stores[i]| < sizes[i] {
          return true;
        }
        FillBucket(i);
      }
      return false;
    }

    method FillBucket(i: nat)
      requires Valid() && i < |caps| && (caps[i] >= 0 || |stores[i]| == sizes[i])
      modifies this
      ensures Valid() && fresh(Stored() - old(Stored()))
      ensures |stores[i]| == sizes[i] && stores == old(stores)[i := stores[i]]
      ensures Filled(old(stores)[i], stores[i], caps[i])
    {
      while |stores[i]| < sizes[i]
        invariant Valid() && fresh(Stored() - old(Stored()))
        invariant stores == old(stores)[i := stores[i]] && Filled(old(stores)[i], stores[i], caps[i])
        decreases sizes[i] - |stores[i]|
      {
        var s := Alloc(caps[i]);
        Store(i, s);
      }
    }

    /** An empty slice of at least the capacity asked for, which the pool no longer has. */
    method Get(capacity: int) returns (s: Slice)
      requires Valid()
      modifies this
      ensures Valid() && s.Valid() && s.Len() == 0 && s.Cap() >= capacity
      ensures s.Backing() !! Stored() && Stored() <= old(Stored())
      ensures s.Slice? ==> s.arr in old(Stored()) || fresh(s.arr)
      ensures capacity < 1 ==> s.Nil? && stores == old(stores)
      ensures 1 <= capacity <= MaxCapacity(caps) ==>
                var k := GetFrom(caps, capacity, 0);
                k < |caps| &&
                if old(stores)[k] == [] then stores == old(stores) && s.Cap() == caps[k]
                else s == old(stores)[k][0] && stores == old(stores)[k := old(stores)[k][1..]]
      ensures capacity > MaxCapacity(caps) ==> stores == old(stores)
    {
      if capacity < 1 {
        return Nil;
      }
      if capacity > MaxCapacity(caps) {
        s := Alloc(capacity);
        return;
      }
      for i := 0 to |caps|
        invariant stores == old(stores) && Valid()
        invariant GetFrom(caps, capacity, 0) == GetFrom(caps, capacity, i)
      {
        if caps[i] >= capacity {
          if stores[i] == [] {
            s := Alloc(caps[i]);
          } else {
            TakeStored(stores, i);
            s := stores[i][0];
            if s.Slice? {
              StoredIn(stores, i, 0);
            }
            stores := stores[i := stores[i][1..]];
          }
          return;
        }
      }
      s := Alloc(capacity);
    }

    /** Get, for callers who do not mind where the slice comes from. */
    method GetAny(capacity: int) returns (s: Slice)
      requires Valid()
      modifies this
      ensures Valid() && s.Valid() && s.Len() == 0 && s.Cap() >= capacity && (capacity < 1 ==> s.Nil?)
      ensures s.Backing() !! Stored() && Stored() <= old(Stored())
      ensures s.Slice? ==> s.arr in old(Stored()) || fresh(s.arr)
      ensures stores == Taken(old(stores), caps, capacity)
    {
      s := Get(capacity);
    }

    /** Takes a slice back that the caller no longer uses. */
    method Put(value: Slice)
      requires Valid() && value.Valid() && value.Backing() !! Stored()
      modifies this
      ensures Valid() && old(Stored()) <= Stored() <= old(Stored()) + value.Backing()
      ensures var i := PutBefore(caps, value.Cap(), |caps|);
              stores == if value.Cap() <= MaxCapacity(caps) && i > 0 && |old(stores)[i - 1]| < sizes[i - 1]
                        then old(stores)[i - 1 := old(stores)[i - 1] + [value.Emptied()]]
                        else old(stores)
    {
      var s := value.Emptied();
      var capacity := s.Cap();
      if capacity > MaxCapacity(caps) {
        return;
      }
      for i := |caps| downto 0
        invariant stores == old(stores) && Valid()
        invariant PutBefore(caps, capacity, |caps|) == PutBefore(caps, capacity, i)
      {
        if capacity >= caps[i] {
          Store(i, s);
          return;
        }
      }
    }
  }

  // ---- AppendByte ----------------------------------------------------------

  /** A slice of at least the capacity, apart from one that the pool does not have. */
  method GetBeside(ghost bytes: Slice, pool: BytesPool, capacity: nat) returns (s: Slice)
    requires pool.Valid() && bytes.Valid() && bytes.Backing() !! pool.Stored()
    modifies pool
    ensures pool.Valid() && s.Valid() && s.Cap() >= capacity
    ensures s.Backing() !! pool.Stored() && s.Backing() !! bytes.Backing() && bytes.Backing() !! pool.Stored()
    ensures pool.Stored() <= old(pool.Stored()) && fresh(s.Backing() - old(pool.Stored()))
    ensures pool.stores == Taken(old(pool.stores), pool.caps, capacity)
  {
    s := pool.GetAny(capacity);
  }

  /** Put, beside a slice that is in use. */
  method PutBeside(bytes: Slice, ghost s: Slice, pool: BytesPool)
    requires pool.Valid() && bytes.Valid() && bytes.Backing() !! pool.Stored()
    requires s.Backing() !! pool.Stored() && s.Backing() !! bytes.Backing()
    modifies pool
    ensures pool.Valid() && s.Backing() !! pool.Stored()
    ensures pool.Stored() <= old(pool.Stored()) + bytes.Backing()
    ensures pool.stores == PutInto(old(pool.stores), pool.caps, pool.sizes, bytes.Cap(), bytes.Emptied())
  {
    pool.Put(bytes);
  }

  /** The built-in copy into the beginning of a slice resliced to n. */
  method CopyInto(dst: Slice, src: Slice, n: nat)
    requires dst.Valid() && src.Valid() && n == src.Len() <= dst.Cap() && dst.Backing() !! src.Backing()
    modifies dst.Backing()
    ensures n > 0 ==> dst.arr[..n] == old(src.Bytes())
  {
    for i := 0 to n
      invariant src.Bytes() == old(src.Bytes())
      invariant i > 0 ==> dst.arr[..i] == src.Bytes()[..i]
    {
      dst.arr[i] := src.arr[i];
    }
  }

  /** The full slice's case: its bytes in a slice of twice the capacity, itself in the pool. */
  method MoveToLarger(bytes: Slice, pool: BytesPool) returns (s: Slice)
    requires pool.Valid() && bytes.Valid() && bytes.Backing() !! pool.Stored()
    modifies pool, pool.Stored()
    ensures pool.Valid() && s.Valid() && s.Bytes() == old(bytes.Bytes())
    ensures s.Backing() !! pool.Stored() && s.Backing() !! bytes.Backing()
    ensures s.Cap() >= 2 * bytes.Cap()
    ensures pool.stores == PutInto(Taken(old(pool.stores), pool.caps, 2 * bytes.Cap()), pool.caps, pool.sizes, bytes.Cap(), bytes.Emptied())
    ensures fresh(pool.Stored() + s.Backing() - old(pool.Stored()) - bytes.Backing())
  {
    var newBytes := GetBeside(bytes, pool, bytes.Cap() * 2);
    var n := bytes.Len();
    CopyInto(newBytes, bytes, n);
    PutBeside(bytes, newBytes, pool);
    s := if newBytes.Nil? then Nil else Slice(newBytes.arr, n);
  }

  /** The new slice is not shared with the pool, nor with the old one when that was given back. */
  method AppendByte(bytes: Slice, b: Byte, pool: BytesPool) returns (r: Slice)
    requires pool.Valid() && bytes.Valid() && bytes.Backing() !! pool.Stored()
    modifies pool, pool.Stored(), bytes.Backing()
    ensures pool.Valid() && r.Slice? && r.Valid() && r.Bytes() == old(bytes.Bytes()) + [b]
    ensures r.Backing() !! pool.Stored()
    ensures if bytes.Len() < bytes.Cap() then r.arr == bytes.arr else r.Backing() !! bytes.Backing()
    ensures pool.stores == if bytes.Len() < bytes.Cap() then old(pool.stores)
                           else PutInto(Taken(old(pool.stores), pool.caps, 2 * bytes.Cap()), pool.caps, pool.sizes, bytes.Cap(), bytes.Emptied())
    ensures fresh(pool.Stored() + r.Backing() - old(pool.Stored()) - bytes.Backing())
  {
    var s := bytes;
    if bytes.Len() == bytes.Cap() {
      s := MoveToLarger(bytes, pool);
    }
    r := Append(s, b);
  }

  /** AppendByte, for callers who do not mind what the pool has then. */
  method AppendByteAny(bytes: Slice, b: Byte, pool: BytesPool) returns (r: Slice)
    requires pool.Valid() && bytes.Valid() && bytes.Backing() !! pool.Stored()
    modifies pool, pool.Stored(), bytes.Backing()
    ensures pool.Valid() && r.Valid() && r.Bytes() == old(bytes.Bytes()) + [b]
    ensures r.Backing() !! pool.Stored()
    ensures fresh(pool.Stored() + r.Backing() - old(pool.Stored()) - bytes.Backing())
  {
    r := AppendByte(bytes, b, pool);
  }

  /** Any sequence of AppendByte calls yields exactly the appended bytes, in order. */
  method AppendBytes(start: Slice, bs: seq<Byte>, pool: BytesPool) returns (r: Slice)
    requires pool.Valid() && start.Valid() && start.Backing() !! pool.Stored()
    modifies pool, pool.Stored(), start.Backing()
    ensures pool.Valid() && r.Valid() && r.Bytes() == old(start.Bytes()) + bs
    ensures r.Backing() !! pool.Stored()
  {
    r := start;
    for i := 0 to |bs|
      invariant pool.Valid() && r.Valid() && r.Bytes() == old(start.Bytes()) + bs[..i]
      invariant r.Backing() !! pool.Stored()
      invariant fresh(pool.Stored() + r.Backing() - old(pool.Stored()) - start.Backing())
    {
      r := AppendByteAny(r, bs[i], pool);
      assert bs[..i + 1] == bs[..i] + [bs[i]];
    }
    assert bs[..|bs|] == bs;
  }
}
