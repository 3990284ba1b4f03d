/**
 Calls on the pool of `CheckedPools` and on its buffers are steps of `PoolProtocol`: objects
 that agree with a state of the protocol still agree with it after both have moved.
 */
module PoolRefinement {
  import opened Common
  import opened PoolBuckets
  import opened BytesPools
  import P = PoolProtocol
  import opened CheckedPools

  ghost predicate BufferAgrees(o: CheckedBytes, x: P.Buffer)
    reads o
  {
    o.Idle() && o.value.Len() == x.len && o.value.Cap() == x.cap && o.ref == x.ref
  }

  ghost predicate QueueAgrees(store: seq<CheckedBytes>, objs: seq<CheckedBytes>, ids: seq<nat>) {
    |store| == |ids| && forall p :: 0 <= p < |store| ==> ids[p] < |objs| && store[p] == objs[ids[p]]
  }

  ghost predicate QueuesAgree(stores: seq<seq<CheckedBytes>>, objs: seq<CheckedBytes>, queues: seq<seq<nat>>) {
    |stores| == |queues| && forall i :: 0 <= i < |stores| ==> QueueAgrees(stores[i], objs, queues[i])
  }

  ghost predicate Agrees(pool: CheckedBytesPool, objs: seq<CheckedBytes>, s: P.State)
    reads pool, objs
  {
    && pool.caps == s.caps && pool.sizes == s.sizes && QueuesAgree(pool.stores, objs, s.queues)
    && |objs| == |s.buffers| && Distinct(objs)
    && forall id :: 0 <= id < |objs| ==> BufferAgrees(objs[id], s.buffers[id])
  }

  lemma MoreObjects(store: seq<CheckedBytes>, objs: seq<CheckedBytes>, ids: seq<nat>, o: CheckedBytes)
    requires QueueAgrees(store, objs, ids)
    ensures QueueAgrees(store, objs + [o], ids)
  {
  }

  /** The queues after Get, when it takes the first buffer of a bucket. */
  lemma TakenStep(stores: seq<seq<CheckedBytes>>, objs: seq<CheckedBytes>, s: P.State, capacity: int, backing: nat)
    requires QueuesAgree(stores, objs, s.queues) && |objs| == |s.buffers| && P.Available(s, capacity)
    ensures P.Enabled(s, P.Get(capacity, backing)) && P.GetId(s, capacity) < |objs|
    ensures var k, id, s' := GetFrom(s.caps, capacity, 0), P.GetId(s, capacity), P.GetStep(s, capacity, backing);
            && stores[k] != [] && objs[id] == stores[k][0]
            && s'.caps == s.caps && s'.sizes == s.sizes && s'.buffers == s.buffers[id := s.buffers[id].(held := true)]
            && QueuesAgree(stores[k := stores[k][1..]], objs, s'.queues)
  {
    var k := GetFrom(s.caps, capacity, 0);
    assert QueueAgrees(stores[k], objs, s.queues[k]);
    TakenAgrees(stores, objs, s.queues, k);
  }

  /** Get is one step, with the capacity that was allocated if it allocates. */
  method Get(pool: CheckedBytesPool, ghost objs: seq<CheckedBytes>, ghost s: P.State, capacity: int)
      returns (b: CheckedBytes, ghost objs': seq<CheckedBytes>, ghost s': P.State)
    requires pool.Valid() && Agrees(pool, objs, s)
    modifies pool, pool.backing
    ensures pool.Valid() && objs <= objs' && Agrees(pool, objs', s')
    ensures P.Enabled(s, P.Get(capacity, b.value.Cap())) && s' == P.Step(s, P.Get(capacity, b.value.Cap()))
    ensures P.GetId(s, capacity) < |objs'| && b == objs'[P.GetId(s, capacity)]
  {
    if P.Available(s, capacity) {
      TakenStep(pool.stores, objs, s, capacity, 0);
    }
    b := GetFromPool(pool, capacity);
    if P.Available(s, capacity) {
      TakenStep(old(pool.stores), objs, s, capacity, b.value.Cap());
      objs', s' := objs, P.GetStep(s, capacity, b.value.Cap());
      ghost var id := P.GetId(s, capacity);
      assert old(BufferAgrees(objs[id], s.buffers[id]));
      OthersAgree(pool, objs, s, s', id);
    } else {
      objs', s' := objs + [b], P.GetStep(s, capacity, b.value.Cap());
      NewAgrees(pool, objs, s, s', b);
    }
  }

  method GetFromPool(pool: CheckedBytesPool, capacity: int) returns (b: CheckedBytes)
    requires pool.Valid()
    modifies pool, pool.backing
    ensures pool.Valid() && b.Idle() && b.ref == 0 && b.value.Len() == 0
    ensures var k := GetFrom(pool.caps, capacity, 0);
            |old(pool.stores)| == |pool.caps| &&
            if capacity <= MaxCapacity(pool.caps) && k < |pool.caps| && old(pool.stores)[k] != []
            then b == old(pool.stores)[k][0] && pool.stores == old(pool.stores)[k := old(pool.stores)[k][1..]]
            else fresh(b) && pool.stores == old(pool.stores) && Enough(AllocCapacity(pool.caps, capacity), b.value.Cap())
  {
    b := pool.Get(capacity);
  }

  lemma NewAgrees(pool: CheckedBytesPool, objs: seq<CheckedBytes>, s: P.State, s': P.State, b: CheckedBytes)
    requires Agrees(pool, objs, s) && b !in objs && s' == s.(buffers := s'.buffers)
    requires |s'.buffers| == |objs| + 1 && s'.buffers == s.buffers + [s'.buffers[|objs|]] && BufferAgrees(b, s'.buffers[|objs|])
    ensures Agrees(pool, objs + [b], s')
  {
    forall i | 0 <= i < |pool.stores| ensures QueueAgrees(pool.stores[i], objs + [b], s'.queues[i]) {
      MoreObjects(pool.stores[i], objs, s.queues[i], b);
    }
  }

  lemma TakenAgrees(stores: seq<seq<CheckedBytes>>, objs: seq<CheckedBytes>, queues: seq<seq<nat>>, k: nat)
    requires QueuesAgree(stores, objs, queues) && k < |stores| && stores[k] != []
    ensures QueuesAgree(stores[k := stores[k][1..]], objs, queues[k := queues[k][1..]])
  {
    assert QueueAgrees(stores[k], objs, queues[k]);
  }

  lemma StoredAgrees(stores: seq<seq<CheckedBytes>>, objs: seq<CheckedBytes>, queues: seq<seq<nat>>, k: nat, id: nat)
    requires QueuesAgree(stores, objs, queues) && k < |stores| && id < |objs|
    ensures QueuesAgree(stores[k := stores[k] + [objs[id]]], objs, queues[k := queues[k] + [id]])
  {
    assert QueueAgrees(stores[k], objs, queues[k]);
  }

  /** A held buffer is not in the pool. */
  lemma HeldIsOutside(pool: CheckedBytesPool, objs: seq<CheckedBytes>, s: P.State, id: nat)
    requires P.Inv(s) && Agrees(pool, objs, s) && s.Holding(id)
    ensures objs[id] !in pool.Stored()
  {
    P.HeldNotStored(s, id);
    forall i, p | 0 <= i < |pool.stores| && 0 <= p < |pool.stores[i]| ensures pool.stores[i][p] != objs[id] {
      assert QueueAgrees(pool.stores[i], objs, s.queues[i]);
    }
  }

  /** Only the buffer id changed, and as the step says. */
  lemma OthersAgree(pool: CheckedBytesPool, objs: seq<CheckedBytes>, s: P.State, s': P.State, id: nat)
    requires pool.caps == s'.caps && pool.sizes == s'.sizes && QueuesAgree(pool.stores, objs, s'.queues)
    requires |objs| == |s.buffers| && Distinct(objs) && id < |objs|
    requires |s'.buffers| == |s.buffers| && s'.buffers == s.buffers[id := s'.buffers[id]]
    requires forall j :: 0 <= j < |objs| && j != id ==> BufferAgrees(objs[j], s.buffers[j])
    requires BufferAgrees(objs[id], s'.buffers[id])
    ensures Agrees(pool, objs, s')
  {
  }

  /** Where FinalizeBytes puts a buffer. */
  lemma FinalizedStep(stores: seq<seq<CheckedBytes>>, objs: seq<CheckedBytes>, s: P.State, id: nat)
    requires QueuesAgree(stores, objs, s.queues) && |objs| == |s.buffers| && id < |objs| && |stores| == |s.caps| == |s.sizes|
    ensures var b, s' := s.buffers[id], P.FinalizeStep(s, id);
            && s'.caps == s.caps && s'.sizes == s.sizes && s'.buffers == s.buffers[id := b.(len := 0, held := false)]
            && QueuesAgree(PutInto(stores, s.caps, s.sizes, b.cap, objs[id]), objs, s'.queues)
  {
    var i := PutBefore(s.caps, s.buffers[id].cap, |s.caps|);
    if i > 0 {
      assert QueueAgrees(stores[i - 1], objs, s.queues[i - 1]);
      StoredAgrees(stores, objs, s.queues, i - 1, id);
    }
  }

  /** FinalizeBytes of a held buffer without references is one step. */
  method Finalize(pool: CheckedBytesPool, ghost objs: seq<CheckedBytes>, ghost s: P.State, ghost id: nat, b: CheckedBytes)
      returns (ghost s': P.State)
    requires pool.Valid() && Agrees(pool, objs, s) && P.Enabled(s, P.Finalize(id)) && b == objs[id]
    requires pool.Outside(b)
    modifies pool, b
    ensures pool.Valid() && s' == P.Step(s, P.Finalize(id)) && Agrees(pool, objs, s')
  {
    FinalizedStep(pool.stores, objs, s, id);
    assert BufferAgrees(objs[id], s.buffers[id]);
    s' := P.FinalizeStep(s, id);
    FinalizeInto(pool, b);
    assert BufferAgrees(objs[id], s'.buffers[id]);
    OthersAgree(pool, objs, s, s', id);
  }

  method FinalizeInto(pool: CheckedBytesPool, b: CheckedBytes)
    requires pool.Valid() && pool.Outside(b) && b.Idle() && b.ref == 0
    modifies pool, b
    ensures pool.Valid() && b.Idle() && b.ref == 0 && b.value.Len() == 0 && b.value.Cap() == old(b.value.Cap())
    ensures pool.stores == PutInto(old(pool.stores), pool.caps, pool.sizes, old(b.value.Cap()), b)
  {
    pool.FinalizeBytes(b);
  }

  /** So is what a holder does to its buffer. */
  method IncRef(pool: CheckedBytesPool, ghost objs: seq<CheckedBytes>, ghost s: P.State, ghost id: nat, b: CheckedBytes)
      returns (ghost s': P.State)
    requires Agrees(pool, objs, s) && P.Enabled(s, P.IncRef(id)) && b == objs[id]
    modifies b
    ensures s' == P.Step(s, P.IncRef(id)) && Agrees(pool, objs, s')
  {
    s' := P.Step(s, P.IncRef(id));
    assert BufferAgrees(objs[id], s.buffers[id]);
    b.IncRef();
    OthersAgree(pool, objs, s, s', id);
  }

  method DecRef(pool: CheckedBytesPool, ghost objs: seq<CheckedBytes>, ghost s: P.State, ghost id: nat, b: CheckedBytes)
      returns (ghost s': P.State)
    requires Agrees(pool, objs, s) && P.Enabled(s, P.DecRef(id)) && b == objs[id]
    modifies b
    ensures s' == P.Step(s, P.DecRef(id)) && Agrees(pool, objs, s')
  {
    s' := P.Step(s, P.DecRef(id));
    assert BufferAgrees(objs[id], s.buffers[id]);
    b.DecRef();
    OthersAgree(pool, objs, s, s', id);
  }

  method Resize(pool: CheckedBytesPool, ghost objs: seq<CheckedBytes>, ghost s: P.State, ghost id: nat, b: CheckedBytes, size: nat)
      returns (ghost s': P.State)
    requires Agrees(pool, objs, s) && P.Enabled(s, P.Resize(id, size)) && b == objs[id]
    modifies b
    ensures s' == P.Step(s, P.Resize(id, size)) && Agrees(pool, objs, s')
  {
    s' := P.Step(s, P.Resize(id, size));
    assert BufferAgrees(objs[id], s.buffers[id]);
    b.Resize(size);
    OthersAgree(pool, objs, s, s', id);
  }

  /** The capacity after Append is the old one, or what append chose. */
  method Append(pool: CheckedBytesPool, ghost objs: seq<CheckedBytes>, ghost s: P.State, ghost id: nat, b: CheckedBytes, x: Byte)
      returns (ghost s': P.State)
    requires Agrees(pool, objs, s) && s.Holding(id) && s.buffers[id].ref >= 1 && b == objs[id]
    modifies b, b.value.Backing()
    ensures P.Enabled(s, P.Append(id, b.value.Cap())) && s' == P.Step(s, P.Append(id, b.value.Cap())) && Agrees(pool, objs, s')
  {
    assert BufferAgrees(objs[id], s.buffers[id]);
    b.Append(x);
    assert |b.value.Bytes()| == s.buffers[id].len + 1;
    s' := P.Step(s, P.Append(id, b.value.Cap()));
    OthersAgree(pool, objs, s, s', id);
  }

  method AppendAll(pool: CheckedBytesPool, ghost objs: seq<CheckedBytes>, ghost s: P.State, ghost id: nat, b: CheckedBytes, xs: seq<Byte>)
      returns (ghost s': P.State)
    requires Agrees(pool, objs, s) && s.Holding(id) && s.buffers[id].ref >= 1 && b == objs[id]
    modifies b, b.value.Backing()
    ensures P.Enabled(s, P.AppendAll(id, |xs|, b.value.Cap())) && s' == P.Step(s, P.AppendAll(id, |xs|, b.value.Cap()))
    ensures Agrees(pool, objs, s')
  {
    assert BufferAgrees(objs[id], s.buffers[id]);
    b.AppendAll(xs);
    assert |b.value.Bytes()| == s.buffers[id].len + |xs|;
    s' := P.Step(s, P.AppendAll(id, |xs|, b.value.Cap()));
    OthersAgree(pool, objs, s, s', id);
  }

  method Reset(pool: CheckedBytesPool, ghost objs: seq<CheckedBytes>, ghost s: P.State, ghost id: nat, b: CheckedBytes, v: Slice)
      returns (ghost s': P.State)
    requires Agrees(pool, objs, s) && s.Holding(id) && s.buffers[id].ref >= 1 && b == objs[id] && v.Valid()
    modifies b
    ensures P.Enabled(s, P.Reset(id, v.Len(), v.Cap())) && s' == P.Step(s, P.Reset(id, v.Len(), v.Cap()))
    ensures Agrees(pool, objs, s')
  {
    assert BufferAgrees(objs[id], s.buffers[id]);
    b.Reset(v);
    s' := P.Step(s, P.Reset(id, v.Len(), v.Cap()));
    OthersAgree(pool, objs, s, s', id);
  }

  /** Filling a bucket that has room with one buffer, as Init and the refill do, is one step. */
  method Fill(pool: CheckedBytesPool, ghost objs: seq<CheckedBytes>, ghost s: P.State, i: nat)
      returns (b: CheckedBytes, ghost s': P.State)
    requires pool.Valid() && Agrees(pool, objs, s) && i < |pool.caps| && |pool.stores[i]| < pool.sizes[i]
    modifies pool, pool.backing
    ensures pool.Valid() && fresh(b)
    ensures P.Enabled(s, P.Fill(i, b.value.Cap())) && s' == P.Step(s, P.Fill(i, b.value.Cap())) && Agrees(pool, objs + [b], s')
  {
    b := AllocInto(pool, i);
    s' := P.Step(s, P.Fill(i, b.value.Cap()));
    NewStoredAgrees(old(pool.stores), objs, s.queues, i, b);
  }

  method AllocInto(pool: CheckedBytesPool, i: nat) returns (b: CheckedBytes)
    requires pool.Valid() && i < |pool.caps| && |pool.stores[i]| < pool.sizes[i]
    modifies pool, pool.backing
    ensures pool.Valid() && fresh(b) && b.Idle() && b.ref == 0 && b.value.Len() == 0 && Enough(pool.caps[i], b.value.Cap())
    ensures i < |old(pool.stores)| && pool.stores == old(pool.stores)[i := old(pool.stores)[i] + [b]]
  {
    b := pool.Alloc(pool.caps[i]);
    pool.OutsideIff(b);
    pool.Store(i, b);
  }

  lemma NewStoredAgrees(stores: seq<seq<CheckedBytes>>, objs: seq<CheckedBytes>, queues: seq<seq<nat>>, k: nat, b: CheckedBytes)
    requires QueuesAgree(stores, objs, queues) && k < |stores|
    ensures QueuesAgree(stores[k := stores[k] + [b]], objs + [b], queues[k := queues[k] + [|objs|]])
  {
    forall i | 0 <= i < |stores| ensures QueueAgrees(stores[i], objs + [b], queues[i]) {
      MoreObjects(stores[i], objs, queues[i], b);
    }
    StoredAgrees(stores, objs + [b], queues, k, |objs|);
  }
}
