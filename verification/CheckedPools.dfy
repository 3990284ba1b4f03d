/**
 Checked byte buffers, their pool and AppendByteChecked (checked/ref.go, checked/bytes.go,
 pool/checked_bytes.go).  Where the source panics, the method here has a precondition, or
 says whether it does.
 */
module CheckedPools {
  import opened Common
  import opened PoolBuckets
  import opened BytesPools

  class CheckedBytes {
    var ref: int
    var reading: int
    var writing: int
    var value: Slice

    /** Nobody is in the middle of a read or a write. */
    ghost predicate Idle()
      reads this
    {
      reading == 0 && writing == 0 && value.Valid()
    }

    constructor (value: Slice)
      requires value.Valid()
      ensures Idle() && ref == 0 && this.value == value
    {
      ref, reading, writing := 0, 0, 0;
      this.value := value;
    }

    method IncRef()
      modifies this`ref
      ensures ref == old(ref) + 1
    {
      ref := ref + 1;
    }

    /** A negative count panics. */
    method DecRef()
      requires ref >= 1
      modifies this`ref
      ensures ref == old(ref) - 1
    {
      ref := ref - 1;
    }

    /** A read without a reference panics. */
    method IncReads()
      requires reading + 1 > 0 ==> ref >= 1
      modifies this`reading
      ensures reading == old(reading) + 1
    {
      reading := reading + 1;
    }

    method DecReads()
      requires ref >= 1
      modifies this`reading
      ensures reading == old(reading) - 1
    {
      reading := reading - 1;
    }

    /** So does a write, and a second write at a time. */
    method IncWrites()
      requires (writing + 1 > 0 ==> ref >= 1) && writing + 1 <= 1
      modifies this`writing
      ensures writing == old(writing) + 1
    {
      writing := writing + 1;
    }

    method DecWrites()
      requires ref >= 1
      modifies this`writing
      ensures writing == old(writing) - 1
    {
      writing := writing - 1;
    }

    method Bytes() returns (v: Slice)
      requires Idle() && ref >= 1
      modifies this`reading
      ensures Idle() && v == value
    {
      IncReads();
      v := value;
      DecReads();
    }

    method Cap() returns (n: nat)
      requires Idle() && ref >= 1
      modifies this`reading
      ensures Idle() && n == value.Cap()
    {
      IncReads();
      n := value.Cap();
      DecReads();
    }

    method Len() returns (n: nat)
      requires Idle() && ref >= 1
      modifies this`reading
      ensures Idle() && n == value.Len()
    {
      IncReads();
      n := value.Len();
      DecReads();
    }

    method Resize(size: nat)
      requires Idle() && ref >= 1 && size <= value.Cap()
      modifies this`writing, this`value
      ensures Idle() && value.Len() == size && value.Backing() == old(value.Backing())
    {
      IncWrites();
      value := if value.Nil? then Nil else Slice(value.arr, size);
      DecWrites();
    }

    method AppendAll(values: seq<Byte>)
      requires Idle() && ref >= 1
      modifies this`writing, this`value, value.Backing()
      ensures Idle() && value.Bytes() == old(value.Bytes()) + values
      ensures if old(value).Len() + |values| <= old(value).Cap() then value.Backing() == old(value.Backing()) else fresh(value.Backing())
    {
      IncWrites();
      value := AppendMany(value, values);
      DecWrites();
    }

    method Reset(v: Slice)
      requires Idle() && ref >= 1 && v.Valid()
      modifies this`writing, this`value
      ensures Idle() && value == v
    {
      IncWrites();
      value := v;
      DecWrites();
    }

    /** What FinalizeBytes does to a buffer before it is put back. */
    method Empty() returns (capacity: nat)
      requires Idle() && ref >= 0
      modifies this
      ensures Idle() && ref == old(ref) && value.Len() == 0 && value.Backing() == old(value.Backing())
      ensures capacity == value.Cap() == old(value.Cap())
    {
      IncRef();
      Resize(0);
      capacity := Cap();
      DecRef();
    }

    method Append(b: Byte)
      requires Idle() && ref >= 1
      modifies this`writing, this`value, value.Backing()
      ensures Idle() && value.Slice? && value.Bytes() == old(value.Bytes()) + [b]
      ensures if old(value).Len() < old(value).Cap() then value.arr == old(value).arr else fresh(value.arr)
    {
      IncWrites();
      value := BytesPools.Append(value, b);
      DecWrites();
    }
  }

  // ---- the pool ------------------------------------------------------------

  ghost function Objects(stores: seq<seq<CheckedBytes>>): set<CheckedBytes> {
    set i, p | 0 <= i < |stores| && 0 <= p < |stores[i]| :: stores[i][p]
  }

  lemma AddObject(stores: seq<seq<CheckedBytes>>, i: nat, b: CheckedBytes)
    requires i < |stores| && Once(stores) && b !in Objects(stores)
    ensures var stores' := stores[i := stores[i] + [b]];
            Once(stores') && Objects(stores') == Objects(stores) + {b}
  {
    var stores' := stores[i := stores[i] + [b]];
    assert Once(stores') by {
      forall j, p | 0 <= j < |stores| && 0 <= p < |stores[j]| ensures stores[j][p] in Objects(stores) {
      }
      OnceAdd(stores, i, b);
    }
    assert stores'[i][|stores[i]|] == b;
    forall x | x in Objects(stores') ensures x in Objects(stores) + {b} {
      var j, p :| 0 <= j < |stores'| && 0 <= p < |stores'[j]| && stores'[j][p] == x;
      assert p < |stores[j]| ==> stores[j][p] == x;
    }
    forall x | x in Objects(stores) ensures x in Objects(stores') {
      var j, p :| 0 <= j < |stores| && 0 <= p < |stores[j]| && stores[j][p] == x;
      assert stores'[j][p] == x;
    }
  }

  lemma TakeObject(stores: seq<seq<CheckedBytes>>, i: nat)
    requires i < |stores| && stores[i] != [] && Once(stores)
    ensures var stores' := stores[i := stores[i][1..]];
            Once(stores') && stores[i][0] in Objects(stores) && Objects(stores') == Objects(stores) - {stores[i][0]}
  {
    var stores', b := stores[i := stores[i][1..]], stores[i][0];
    OnceTake(stores, i);
    forall x | x in Objects(stores') ensures x in Objects(stores) - {b} {
      var j, p :| 0 <= j < |stores'| && 0 <= p < |stores'[j]| && stores'[j][p] == x;
      assert stores[j][if j == i then p + 1 else p] == x;
    }
    forall x | x in Objects(stores) - {b} ensures x in Objects(stores') {
      var j, p :| 0 <= j < |stores| && 0 <= p < |stores[j]| && stores[j][p] == x;
      assert stores'[j][if j == i then p - 1 else p] == x;
    }
  }

  class CheckedBytesPool {
    const caps: seq<int>
    const sizes: seq<nat>
    const backing: BytesPool
    var stores: seq<seq<CheckedBytes>>

    ghost function Stored(): set<CheckedBytes>
      reads this
    {
      Objects(stores)
    }

    /** The arrays that Get may hand out. */
    ghost function StoredArrays(): set<array<Byte>>
      reads this, Stored()`value, backing
    {
      (set b | b in Stored() && b.value.Slice? :: b.value.arr) + backing.Stored()
    }

    /** A buffer that can be handed out: empty, idle, and without references. */
    ghost predicate Ready(b: CheckedBytes)
      reads b
    {
      b.Idle() && b.ref == 0 && b.value.Len() == 0
    }

    /** Nobody shares an array with b. */
    ghost predicate Apart(b: CheckedBytes)
      reads this, Stored()`value, b`value, backing
    {
      && b.value.Backing() !! backing.Stored()
      && forall x :: x in Stored() && x != b ==> x.value.Backing() !! b.value.Backing()
    }

    /** The pool neither has b nor shares an array with it. */
    ghost predicate Outside(b: CheckedBytes)
      reads this, Stored()`value, b`value, backing
    {
      b !in Stored() && b.value.Backing() !! StoredArrays()
    }

    lemma OutsideIff(b: CheckedBytes)
      requires b !in Stored()
      ensures Outside(b) <==> Apart(b)
    {
      if Outside(b) {
        forall x | x in Stored() ensures x.value.Backing() !! b.value.Backing() {
          assert x.value.Slice? ==> x.value.arr in StoredArrays();
        }
      }
    }

    ghost predicate Valid()
      reads this, Stored(), backing
    {
      && backing.Valid()
      && Ascending(caps) && |sizes| == |caps| && |stores| == |caps|
      && (forall i :: 0 <= i < |stores| ==> |stores[i]| <= sizes[i])
      && Once(stores)
      && (forall i, p :: 0 <= i < |stores| && 0 <= p < |stores[i]| ==> stores[i][p].value.Cap() >= caps[i])
      && (forall b :: b in Stored() ==> Ready(b) && Apart(b))
    }

    constructor (caps: seq<int>, sizes: seq<nat>, backing: BytesPool)
      requires Ascending(caps) && |sizes| == |caps| && backing.Valid()
      ensures Valid() && this.caps == caps && this.sizes == sizes && this.backing == backing && Stored() == {}
    {
      this.caps, this.sizes, this.backing := caps, sizes, backing;
      stores := seq(|caps|, _ => []);
    }

    /** What the pool allocates: the bytes come from the backing pool. */
    method Alloc(capacity: int) returns (b: CheckedBytes)
      requires Valid()
      modifies backing
      ensures Valid() && stores == old(stores)
      ensures fresh(b) && Ready(b) && b.value.Cap() >= capacity && Outside(b)
      ensures fresh(b.value.Backing() - old(StoredArrays())) && StoredArrays() <= old(StoredArrays())
      ensures capacity < 1 ==> b.value.Nil?
    {
      var value := backing.GetAny(capacity);
      b := new CheckedBytes(value);
    }

    /** The first buffer of a bucket that is not empty. */
    method Take(i: nat) returns (b: CheckedBytes)
      requires Valid() && i < |caps| && stores[i] != []
      modifies this
      ensures Valid() && b !in Stored() && Ready(b) && b.value.Cap() >= caps[i] && Apart(b)
      ensures b in old(Stored()) && Stored() <= old(Stored())
      ensures b.value.Backing() <= old(StoredArrays()) && StoredArrays() <= old(StoredArrays())
      ensures b == old(stores)[i][0] && stores == old(stores)[i := old(stores)[i][1..]]
    {
      TakeObject(stores, i);
      b := stores[i][0];
      stores := stores[i := stores[i][1..]];
    }

    /** A bucket's Get: its first buffer, or a new one of the bucket's capacity. */
    method GetFromBucket(i: nat) returns (b: CheckedBytes)
      requires Valid() && i < |caps|
      modifies this, backing
      ensures Valid() && Outside(b) && Ready(b) && b.value.Cap() >= caps[i]
      ensures Stored() <= old(Stored()) && (b in old(Stored()) || fresh(b))
      ensures fresh(b.value.Backing() - old(StoredArrays())) && StoredArrays() <= old(StoredArrays())
      ensures if old(stores)[i] == [] then fresh(b) && stores == old(stores) && (caps[i] < 1 ==> b.value.Nil?)
              else b == old(stores)[i][0] && stores == old(stores)[i := old(stores)[i][1..]]
    {
      if stores[i] == [] {
        b := Alloc(caps[i]);
      } else {
        b := Take(i);
        OutsideIff(b);
      }
    }

    /** The smallest bucket that is large enough gives its first buffer; if that bucket is
        empty or there is none, a new one is made. */
    method Get(capacity: int) returns (b: CheckedBytes)
      requires Valid()
      modifies this, backing
      ensures Valid() && Outside(b) && Ready(b) && b.value.Cap() >= capacity
      ensures Stored() <= old(Stored()) && (b in old(Stored()) || fresh(b))
      ensures fresh(b.value.Backing() - old(StoredArrays())) && StoredArrays() <= old(StoredArrays())
      ensures var k := GetFrom(caps, capacity, 0);
              if capacity <= MaxCapacity(caps) && k < |caps| && old(stores)[k] != []
              then b == old(stores)[k][0] && stores == old(stores)[k := old(stores)[k][1..]]
              else fresh(b) && stores == old(stores) && Enough(AllocCapacity(caps, capacity), b.value.Cap())
    {
      if capacity > MaxCapacity(caps) {
        b := Alloc(capacity);
        return;
      }
      for i := 0 to |caps|
        invariant Valid() && stores == old(stores) && backing.stores == old(backing.stores)
        invariant GetFrom(caps, capacity, 0) == GetFrom(caps, capacity, i)
      {
        if caps[i] >= capacity {
          b := GetFromBucket(i);
          return;
        }
      }
      b := Alloc(capacity);
    }

    /** Puts one buffer into bucket i if it has room. */
    method Store(i: nat, b: CheckedBytes)
      requires Valid() && i < |caps|
      requires b !in Stored() && Ready(b) && b.value.Cap() >= caps[i] && Apart(b)
      modifies this
      ensures Valid()
      ensures if |old(stores)[i]| < sizes[i]
              then stores == old(stores)[i := old(stores)[i] + [b]] && Stored() == old(Stored()) + {b}
              else stores == old(stores)
    {
      if |stores[i]| < sizes[i] {
        AddObject(stores, i, b);
        stores := stores[i := stores[i] + [b]];
      }
    }

    /** Fills the backing pool and then every bucket; the backing pool panics on a negative
        capacity. */
    method Init() returns (panicked: bool)
      requires Valid() && Stored() == {} && backing.Stored() == {}
      modifies this, backing
      ensures Valid()
      ensures panicked <==> exists i :: 0 <= i < |backing.caps| && backing.caps[i] < 0 && |old(backing.stores)[i]| < backing.sizes[i]
      ensures !panicked ==> forall i :: 0 <= i < |stores| ==> |stores[i]| == sizes[i]
    {
      panicked := backing.Init();
      if panicked {
        return;
      }
      for i := 0 to |caps|
        invariant Valid()
        invariant forall j :: 0 <= j < i ==> |stores[j]| == sizes[j]
      {
        FillBucket(i);
      }
    }

    method FillBucket(i: nat)
      requires Valid() && i < |caps|
      modifies this, backing
      ensures Valid() && |stores[i]| == sizes[i] && stores == old(stores)[i := stores[i]]
    {
      while |stores[i]| < sizes[i]
        invariant Valid() && stores == old(stores)[i := stores[i]]
        decreases sizes[i] - |stores[i]|
      {
        var b := Alloc(caps[i]);
        OutsideIff(b);
        Store(i, b);
      }
    }

    /** The scan of the bucketized pool's Put. */
    method Put(b: CheckedBytes, capacity: nat)
      requires Valid() && b !in Stored() && Ready(b) && b.value.Cap() == capacity && Apart(b)
      modifies this
      ensures Valid()
      ensures var i := PutBefore(caps, capacity, |caps|);
              stores == if capacity <= MaxCapacity(caps) && i > 0 && |old(stores)[i - 1]| < sizes[i - 1]
                        then old(stores)[i - 1 := old(stores)[i - 1] + [b]]
                        else old(stores)
      ensures old(Stored()) <= Stored() <= old(Stored()) + {b}
    {
      if capacity > MaxCapacity(caps) {
        return;
      }
      for i := |caps| downto 0
        invariant stores == old(stores) && Valid()
        invariant PutBefore(caps, capacity, |caps|) == PutBefore(caps, capacity, i)
      {
        if capacity >= caps[i] {
          Store(i, b);
          return;
        }
      }
    }

    /** A buffer comes back: whatever its holder made of it, it is stored empty, where its
        present capacity belongs.  That it has no references is for the caller to see to. */
    method FinalizeBytes(b: CheckedBytes)
      requires Valid() && Outside(b) && b.Idle() && b.ref == 0
      modifies this, b
      ensures Valid() && Ready(b) && b.value.Backing() == old(b.value.Backing())
      ensures old(Stored()) <= Stored() <= old(Stored()) + {b}
      ensures var cap := old(b.value.Cap());
              var i := PutBefore(caps, cap, |caps|);
              stores == if cap <= MaxCapacity(caps) && i > 0 && |old(stores)[i - 1]| < sizes[i - 1]
                        then old(stores)[i - 1 := old(stores)[i - 1] + [b]]
                        else old(stores)
    {
      OutsideIff(b);
      var capacity := b.Empty();
      Put(b, capacity);
    }
  }

  // ---- AppendByteChecked ---------------------------------------------------

  /** References a new buffer and copies the bytes of another into it. */
  method CopyBytes(newBytes: CheckedBytes, bytes: CheckedBytes)
    requires newBytes != bytes && newBytes.Idle() && bytes.Idle()
    requires newBytes.ref == 0 && bytes.ref >= 1
    requires bytes.value.Len() <= newBytes.value.Cap() && newBytes.value.Backing() !! bytes.value.Backing()
    modifies newBytes, bytes`reading, newBytes.value.Backing()
    ensures newBytes.Idle() && bytes.Idle() && newBytes.ref == 1
    ensures newBytes.value.Backing() == old(newBytes.value.Backing())
    ensures newBytes.value.Bytes() == old(bytes.value.Bytes()) == bytes.value.Bytes()
  {
    newBytes.IncRef();
    var n := bytes.Len();
    newBytes.Resize(n);
    var dst := newBytes.Bytes();
    var src := bytes.Bytes();
    CopyInto(dst, src, n);
  }

  /** The bytes of one buffer and one more in another, whose reference is given up again. */
  method CopyAndAppend(newBytes: CheckedBytes, bytes: CheckedBytes, b: Byte)
    requires newBytes != bytes && newBytes.Idle() && bytes.Idle()
    requires newBytes.ref == 0 && bytes.ref >= 1
    requires bytes.value.Len() <= newBytes.value.Cap() && newBytes.value.Backing() !! bytes.value.Backing()
    modifies newBytes, bytes`reading, newBytes.value.Backing()
    ensures newBytes.Idle() && bytes.Idle() && newBytes.ref == 0
    ensures fresh(newBytes.value.Backing() - old(newBytes.value.Backing()))
    ensures newBytes.value.Bytes() == old(bytes.value.Bytes()) + [b]
    ensures bytes.value.Bytes() == old(bytes.value.Bytes())
  {
    CopyBytes(newBytes, bytes);
    newBytes.Append(b);
    newBytes.DecRef();
  }

  /** What Get hands out shares nothing with a buffer that is not in the pool. */
  method GetBeside(ghost bytes: CheckedBytes, pool: CheckedBytesPool, capacity: nat) returns (newBytes: CheckedBytes)
    requires pool.Valid() && pool.Outside(bytes)
    modifies pool, pool.backing
    ensures pool.Valid() && pool.Outside(newBytes) && pool.Ready(newBytes)
    ensures pool.Outside(bytes)
    ensures newBytes != bytes && newBytes.value.Backing() !! bytes.value.Backing()
    ensures newBytes.value.Cap() >= capacity
    ensures pool.stores == TakenFrom(old(pool.stores), pool.caps, capacity)
    ensures newBytes in old(pool.Stored()) || fresh(newBytes)
    ensures fresh(newBytes.value.Backing() - old(pool.StoredArrays()))
    ensures pool.Stored() <= old(pool.Stored()) && pool.StoredArrays() <= old(pool.StoredArrays())
  {
    assert bytes.value.Backing() !! pool.StoredArrays();
    newBytes := pool.Get(capacity);
    assert bytes.value.Backing() !! pool.StoredArrays();
  }

  /** Reading the capacity does not matter to a pool. */
  method CapOf(bytes: CheckedBytes, ghost pool: CheckedBytesPool) returns (c: nat)
    requires pool.Valid() && pool.Outside(bytes) && bytes.Idle() && bytes.ref >= 1
    modifies bytes`reading
    ensures pool.Valid() && bytes.Idle() && pool.Outside(bytes)
    ensures c == bytes.value.Cap() && pool.StoredArrays() == old(pool.StoredArrays())
  {
    c := bytes.Cap();
  }

  /** A buffer of twice the capacity from the pool, apart from the present one. */
  method GetLarger(bytes: CheckedBytes, pool: CheckedBytesPool) returns (newBytes: CheckedBytes)
    requires pool.Valid() && pool.Outside(bytes) && bytes.Idle() && bytes.ref >= 1
    modifies pool, pool.backing, bytes`reading
    ensures pool.Valid() && pool.Outside(newBytes) && pool.Ready(newBytes)
    ensures pool.Outside(bytes) && bytes.Idle()
    ensures newBytes != bytes && newBytes.value.Backing() !! bytes.value.Backing()
    ensures newBytes.value.Cap() >= 2 * bytes.value.Cap()
    ensures pool.stores == TakenFrom(old(pool.stores), pool.caps, 2 * bytes.value.Cap())
    ensures newBytes in old(pool.Stored()) || fresh(newBytes)
    ensures fresh(newBytes.value.Backing() - old(pool.StoredArrays()))
    ensures pool.Stored() <= old(pool.Stored()) && pool.StoredArrays() <= old(pool.StoredArrays())
  {
    ghost var arrays, stores := pool.StoredArrays(), pool.stores;
    var c := CapOf(bytes, pool);
    assert pool.StoredArrays() == arrays && pool.stores == stores;
    newBytes := GetBeside(bytes, pool, c * 2);
  }

  /** The same, seen by the pool that neither of the buffers is in. */
  method CopyApart(newBytes: CheckedBytes, bytes: CheckedBytes, b: Byte, pool: CheckedBytesPool)
    requires newBytes != bytes && newBytes.Idle() && bytes.Idle()
    requires newBytes.ref == 0 && bytes.ref >= 1
    requires bytes.value.Len() <= newBytes.value.Cap() && newBytes.value.Backing() !! bytes.value.Backing()
    requires pool.Valid() && pool.Outside(newBytes) && pool.Outside(bytes)
    modifies newBytes, bytes`reading, newBytes.value.Backing()
    ensures newBytes.Idle() && bytes.Idle() && newBytes.ref == 0
    ensures newBytes.value.Backing() !! bytes.value.Backing()
    ensures newBytes.value.Bytes() == old(bytes.value.Bytes()) + [b]
    ensures bytes.value.Bytes() == old(bytes.value.Bytes())
    ensures pool.Valid() && pool.Outside(newBytes) && pool.Outside(bytes)
    ensures fresh(newBytes.value.Backing() - old(newBytes.value.Backing()))
    ensures pool.Stored() == old(pool.Stored()) && pool.StoredArrays() == old(pool.StoredArrays())
  {
    assert newBytes.value.Backing() !! pool.StoredArrays();
    CopyAndAppend(newBytes, bytes, b);
    assert newBytes.value.Backing() !! pool.StoredArrays();
  }

  /** The full buffer's case: a larger one takes over. */
  method AppendSwapped(bytes: CheckedBytes, b: Byte, pool: CheckedBytesPool) returns (result: CheckedBytes)
    requires pool.Valid() && pool.Outside(bytes) && bytes.Idle() && bytes.ref >= 1
    modifies pool, pool.backing, pool.Stored(), pool.StoredArrays(), bytes`reading
    ensures pool.Valid() && pool.Outside(result) && result.Idle()
    ensures result.value.Bytes() == old(bytes.value.Bytes()) + [b]
    ensures result != bytes && result.ref == 0 && result.value.Backing() !! bytes.value.Backing()
    ensures pool.stores == TakenFrom(old(pool.stores), pool.caps, 2 * bytes.value.Cap())
    ensures pool.Outside(bytes) && bytes.Idle()
    ensures bytes.value.Bytes() == old(bytes.value.Bytes())
    ensures pool.Stored() <= old(pool.Stored()) && (result in old(pool.Stored()) || fresh(result))
    ensures pool.StoredArrays() <= old(pool.StoredArrays())
    ensures fresh(result.value.Backing() - old(pool.StoredArrays()))
  {
    ghost var bytesWere := bytes.value.Bytes();
    result := GetLarger(bytes, pool);
    assert bytes.value.Bytes() == bytesWere;
    CopyApart(result, bytes, b, pool);
  }

  /** The same, for callers who do not mind what the pool has then. */
  method AppendSwappedAny(bytes: CheckedBytes, b: Byte, pool: CheckedBytesPool) returns (result: CheckedBytes)
    requires pool.Valid() && pool.Outside(bytes) && bytes.Idle() && bytes.ref >= 1
    modifies pool, pool.backing, pool.Stored(), pool.StoredArrays(), bytes`reading
    ensures pool.Valid() && pool.Outside(result) && result.Idle()
    ensures result.value.Bytes() == old(bytes.value.Bytes()) + [b]
    ensures result != bytes && result.ref == 0 && result.value.Backing() !! bytes.value.Backing()
    ensures pool.Outside(bytes) && bytes.Idle()
    ensures bytes.value.Bytes() == old(bytes.value.Bytes())
    ensures pool.Stored() <= old(pool.Stored()) && (result in old(pool.Stored()) || fresh(result))
    ensures pool.StoredArrays() <= old(pool.StoredArrays())
    ensures fresh(result.value.Backing() - old(pool.StoredArrays()))
  {
    result := AppendSwapped(bytes, b, pool);
  }

  /** The case with room. */
  method AppendInPlace(bytes: CheckedBytes, b: Byte, pool: CheckedBytesPool)
    requires pool.Valid() && pool.Outside(bytes) && bytes.Idle() && bytes.ref >= 1
    requires bytes.value.Len() < bytes.value.Cap()
    modifies bytes, bytes.value.Backing()
    ensures pool.Valid() && pool.Outside(bytes) && bytes.Idle()
    ensures bytes.value.Bytes() == old(bytes.value.Bytes()) + [b] && bytes.ref == old(bytes.ref)
    ensures bytes.value.Backing() == old(bytes.value.Backing())
    ensures pool.Stored() == old(pool.Stored()) && pool.StoredArrays() == old(pool.StoredArrays())
  {
    bytes.Append(b);
  }

  /** Whether the length is the capacity. Reading it does not matter to a pool. */
  method IsFull(bytes: CheckedBytes, ghost pool: CheckedBytesPool) returns (full: bool)
    requires pool.Valid() && pool.Outside(bytes) && bytes.Idle() && bytes.ref >= 1
    modifies bytes`reading
    ensures pool.Valid() && bytes.Idle() && pool.Outside(bytes)
    ensures full == (bytes.value.Len() == bytes.value.Cap())
    ensures pool.StoredArrays() == old(pool.StoredArrays()) && bytes.value.Bytes() == old(bytes.value.Bytes())
  {
    var n := bytes.Len();
    var c := CapOf(bytes, pool);
    full := n == c;
  }

  /** Appends a byte, in the same buffer as long as there is room.  Otherwise the result is
      another buffer without references, which shares nothing with the old one, and the old
      one is left to the caller as it was. */
  method AppendByteChecked(bytes: CheckedBytes, b: Byte, pool: CheckedBytesPool)
    returns (result: CheckedBytes, swapped: bool)
    requires pool.Valid() && pool.Outside(bytes) && bytes.Idle() && bytes.ref >= 1
    modifies pool, pool.backing, pool.Stored(), pool.StoredArrays(), bytes, bytes.value.Backing()
    ensures pool.Valid() && pool.Outside(result) && result.Idle()
    ensures result.value.Bytes() == old(bytes.value.Bytes()) + [b]
    ensures swapped == (result != bytes) == (old(bytes.value).Len() == old(bytes.value).Cap())
    ensures !swapped ==> result.ref == old(bytes.ref)
    ensures swapped ==>
              && result.ref == 0 && result.value.Backing() !! bytes.value.Backing()
              && pool.Outside(bytes) && bytes.Idle()
              && bytes.ref == old(bytes.ref) && bytes.value == old(bytes.value)
              && bytes.value.Bytes() == old(bytes.value.Bytes())
    ensures pool.Stored() <= old(pool.Stored()) && (result == bytes || result in old(pool.Stored()) || fresh(result))
    ensures pool.StoredArrays() <= old(pool.StoredArrays())
    ensures fresh(result.value.Backing() - old(pool.StoredArrays()) - old(bytes.value.Backing()))
  {
    swapped := IsFull(bytes, pool);
    if !swapped {
      AppendInPlace(bytes, b, pool);
      return bytes, false;
    }
    result := AppendSwappedAny(bytes, b, pool);
  }

  /** Finalizing a buffer, beside one that is in use. */
  method FinalizeBeside(bytes: CheckedBytes, ghost r: CheckedBytes, pool: CheckedBytesPool)
    requires pool.Valid() && pool.Outside(bytes) && bytes.Idle() && bytes.ref == 0
    requires r != bytes && pool.Outside(r) && r.value.Backing() !! bytes.value.Backing()
    modifies pool, bytes
    ensures pool.Valid() && bytes.ref == 0
    ensures pool.Outside(r)
    ensures pool.stores == PutInto(old(pool.stores), pool.caps, pool.sizes, old(bytes.value.Cap()), bytes)
    ensures pool.Stored() <= old(pool.Stored()) + {bytes}
    ensures pool.StoredArrays() <= old(pool.StoredArrays()) + old(bytes.value.Backing())
  {
    pool.FinalizeBytes(bytes);
  }

  /** The caller references the buffer that replaces another one, and releases that. */
  method TakeOver(bytes: CheckedBytes, r: CheckedBytes, pool: CheckedBytesPool)
    requires pool.Valid() && pool.Outside(bytes) && bytes.Idle() && bytes.ref == 1
    requires r != bytes && pool.Outside(r) && r.Idle() && r.ref == 0
    requires r.value.Backing() !! bytes.value.Backing()
    modifies pool, bytes, r`ref
    ensures pool.Valid() && pool.Outside(r) && r.Idle() && r.ref == 1 && bytes.ref == 0
    ensures r.value == old(r.value)
    ensures pool.stores == PutInto(old(pool.stores), pool.caps, pool.sizes, old(bytes.value.Cap()), bytes)
    ensures pool.Stored() <= old(pool.Stored()) + {bytes}
    ensures pool.StoredArrays() <= old(pool.StoredArrays()) + old(bytes.value.Backing())
  {
    MoveReference(bytes, r, pool);
    FinalizeBeside(bytes, r, pool);
  }

  /** References of buffers outside do not matter to a pool. */
  method MoveReference(bytes: CheckedBytes, r: CheckedBytes, ghost pool: CheckedBytesPool)
    requires pool.Valid() && bytes !in pool.Stored() && r !in pool.Stored() && r != bytes && bytes.ref == 1 && r.ref == 0
    modifies bytes`ref, r`ref
    ensures pool.Valid() && pool.StoredArrays() == old(pool.StoredArrays()) && bytes.ref == 0 && r.ref == 1
  {
    bytes.DecRef();
    r.IncRef();
  }

  /** All that a pool and the buffer in use consist of. */
  ghost function Footprint(pool: CheckedBytesPool, r: CheckedBytes): set<object>
    reads pool, pool.Stored(), pool.backing, r
  {
    pool.Stored() + pool.StoredArrays() + {r} + r.value.Backing()
  }

  /** A buffer that its only holder references, and that the pool knows nothing of. */
  ghost predicate Owned(pool: CheckedBytesPool, r: CheckedBytes)
    reads pool, pool.Stored(), pool.backing, r
  {
    pool.Valid() && pool.Outside(r) && r.Idle() && r.ref == 1
  }

  /** AppendByteChecked, for callers who do not mind what the pool has then. */
  method AppendByteAny(bytes: CheckedBytes, b: Byte, pool: CheckedBytesPool) returns (result: CheckedBytes, swapped: bool)
    requires Owned(pool, bytes)
    modifies pool, pool.backing, Footprint(pool, bytes)
    ensures pool.Valid() && pool.Outside(result) && result.Idle() && swapped == (result != bytes)
    ensures result.value.Bytes() == old(bytes.value.Bytes()) + [b]
    ensures !swapped ==> result.ref == 1
    ensures swapped ==>
              && result.ref == 0 && result.value.Backing() !! bytes.value.Backing()
              && pool.Outside(bytes) && bytes.Idle() && bytes.ref == 1 && bytes.value == old(bytes.value)
    ensures fresh(Footprint(pool, result) - old(Footprint(pool, bytes)))
  {
    result, swapped := AppendByteChecked(bytes, b, pool);
  }

  /** One round of a caller that releases the buffer which was swapped out. */
  method AppendAndRelease(bytes: CheckedBytes, b: Byte, pool: CheckedBytesPool) returns (r: CheckedBytes)
    requires Owned(pool, bytes)
    modifies pool, pool.backing, Footprint(pool, bytes)
    ensures Owned(pool, r) && r.value.Bytes() == old(bytes.value.Bytes()) + [b]
    ensures r != bytes ==> bytes.ref == 0
    ensures fresh(Footprint(pool, r) - old(Footprint(pool, bytes)))
  {
    var result, swapped := AppendByteAny(bytes, b, pool);
    r := result;
    if swapped {
      TakeOver(bytes, r, pool);
    }
  }

  /** Any sequence of AppendByteChecked calls by such a caller yields exactly the appended
      bytes, in order, in a buffer that only the caller references. */
  method AppendBytesChecked(start: CheckedBytes, bs: seq<Byte>, pool: CheckedBytesPool) returns (r: CheckedBytes)
    requires Owned(pool, start)
    modifies pool, pool.backing, Footprint(pool, start)
    ensures Owned(pool, r) && r.value.Bytes() == old(start.value.Bytes()) + bs
    decreases |bs|
  {
    if bs == [] {
      return start;
    }
    ghost var was := start.value.Bytes();
    var next := AppendAndRelease(start, bs[0], pool);
    r := AppendBytesChecked(next, bs[1..], pool);
    HeadAndTail(was, bs);
  }
}
