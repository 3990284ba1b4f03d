/**
 A pool of checked byte buffers in use (pool/checked_bytes.go over pool/bucketized.go and
 pool/object.go), as steps that interleave: filling of a bucket by Init or by the refill
 goroutine, Get, what a holder does to its buffer, and Finalize.

 A bucket is a bounded channel of buffers.  A buffer is its length, its capacity and its
 reference count; what append or the backing pool chooses as capacity is a parameter.
 */
module PoolProtocol {
  import opened Common
  import opened PoolBuckets

  datatype Buffer = Buffer(len: nat, cap: nat, ref: int, held: bool)

  datatype State = State(
    caps: seq<int>,
    sizes: seq<nat>,
    queues: seq<seq<nat>>,
    buffers: seq<Buffer>)
  {
    predicate Holding(id: nat) {
      id < |buffers| && buffers[id].held
    }

    function Put(id: nat, b: Buffer): State
      requires id < |buffers|
    {
      this.(buffers := buffers[id := b])
    }
  }

  datatype Action =
    | Fill(i: nat, backing: nat)
    | Get(capacity: int, backing: nat)
    | IncRef(id: nat)
    | DecRef(id: nat)
    | Append(id: nat, newCap: nat)
    | AppendAll(id: nat, n: nat, newCap: nat)
    | Resize(id: nat, size: nat)
    | Reset(id: nat, len: nat, cap: nat)
    | Finalize(id: nat)

  // ---- allocation and the two scans ----------------------------------------

  /** The bucket that Get takes from, if any has something to give. */
  predicate Available(s: State, capacity: int) {
    var k := GetFrom(s.caps, capacity, 0);
    capacity <= MaxCapacity(s.caps) && k < |s.caps| && k < |s.queues| && s.queues[k] != []
  }

  /** The buffer that Get hands out. */
  function GetId(s: State, capacity: int): nat {
    if Available(s, capacity) then s.queues[GetFrom(s.caps, capacity, 0)][0] else |s.buffers|
  }

  /** Where a buffer of a capacity is put back. */
  predicate TakesBack(s: State, cap: nat, i: nat) {
    && cap <= MaxCapacity(s.caps)
    && PutBefore(s.caps, cap, |s.caps|) == i + 1
    && i < |s.queues| && i < |s.sizes| && |s.queues[i]| < s.sizes[i]
  }

  function GrownCap(len: nat, cap: nat, newCap: nat): nat {
    if len <= cap then cap else newCap
  }

  // ---- steps ---------------------------------------------------------------

  /** The step can be taken without a panic: accesses need a reference, a slice does not
      outgrow its capacity, and a finalized buffer has no references and a holder. */
  predicate Enabled(s: State, a: Action) {
    match a
    case Fill(i, backing) =>
      i < |s.caps| && i < |s.queues| && i < |s.sizes| && |s.queues[i]| < s.sizes[i] && Enough(s.caps[i], backing)
    case Get(capacity, backing) =>
      && (!Available(s, capacity) ==> Enough(AllocCapacity(s.caps, capacity), backing))
      && (Available(s, capacity) ==> GetId(s, capacity) < |s.buffers|)
    case IncRef(id) => s.Holding(id)
    case DecRef(id) => s.Holding(id) && s.buffers[id].ref >= 1
    case Append(id, newCap) => s.Holding(id) && s.buffers[id].ref >= 1 && newCap >= s.buffers[id].len + 1
    case AppendAll(id, n, newCap) => s.Holding(id) && s.buffers[id].ref >= 1 && newCap >= s.buffers[id].len + n
    case Resize(id, size) => s.Holding(id) && s.buffers[id].ref >= 1 && size <= s.buffers[id].cap
    case Reset(id, len, cap) => s.Holding(id) && s.buffers[id].ref >= 1 && len <= cap
    case Finalize(id) => s.Holding(id) && s.buffers[id].ref == 0
  }

  /** FinalizeBytes: the length goes to zero, the references are what they were. */
  function FinalizeStep(s: State, id: nat): State
    requires id < |s.buffers|
  {
    var b := s.buffers[id];
    var s' := s.Put(id, b.(len := 0, held := false));
    var i := PutBefore(s.caps, b.cap, |s.caps|);
    if i > 0 && TakesBack(s, b.cap, i - 1) then s'.(queues := s.queues[i - 1 := s.queues[i - 1] + [id]]) else s'
  }

  function GetStep(s: State, capacity: int, backing: nat): State
    requires Enabled(s, Get(capacity, backing))
  {
    if Available(s, capacity) then
      var k := GetFrom(s.caps, capacity, 0);
      var id := s.queues[k][0];
      s.Put(id, s.buffers[id].(held := true)).(queues := s.queues[k := s.queues[k][1..]])
    else
      s.(buffers := s.buffers + [Buffer(0, backing, 0, true)])
  }

  function Step(s: State, a: Action): State
    requires Enabled(s, a)
  {
    match a
    case Fill(i, backing) =>
      s.(buffers := s.buffers + [Buffer(0, backing, 0, false)],
         queues := s.queues[i := s.queues[i] + [|s.buffers|]])
    case Get(capacity, backing) => GetStep(s, capacity, backing)
    case IncRef(id) => s.Put(id, s.buffers[id].(ref := s.buffers[id].ref + 1))
    case DecRef(id) => s.Put(id, s.buffers[id].(ref := s.buffers[id].ref - 1))
    case Append(id, newCap) =>
      var b := s.buffers[id];
      s.Put(id, b.(len := b.len + 1, cap := GrownCap(b.len + 1, b.cap, newCap)))
    case AppendAll(id, n, newCap) =>
      var b := s.buffers[id];
      s.Put(id, b.(len := b.len + n, cap := GrownCap(b.len + n, b.cap, newCap)))
    case Resize(id, size) => s.Put(id, s.buffers[id].(len := size))
    case Reset(id, len, cap) => s.Put(id, s.buffers[id].(len := len, cap := cap))
    case Finalize(id) => FinalizeStep(s, id)
  }

  ghost predicate Leads(s: State, run: seq<Action>, s': State)
    decreases |run|
  {
    if run == [] then s' == s
    else Enabled(s, run[0]) && Leads(Step(s, run[0]), run[1..], s')
  }

  /** A pool before Init: its buckets are empty. */
  ghost predicate Initial(s: State) {
    && Ascending(s.caps) && |s.sizes| == |s.caps| && |s.queues| == |s.caps|
    && (forall i :: 0 <= i < |s.queues| ==> s.queues[i] == [])
    && s.buffers == []
  }

  ghost predicate Reachable(s: State) {
    exists s0, run :: Initial(s0) && Leads(s0, run, s)
  }

  // ---- the invariant -------------------------------------------------------

  /** A stored buffer is empty, without references, and as large as its bucket says. */
  ghost predicate StoredOk(s: State, i: nat, p: nat)
    requires i < |s.queues| && i < |s.caps| && p < |s.queues[i]|
  {
    var id := s.queues[i][p];
    id < |s.buffers| &&
    var b := s.buffers[id];
    !b.held && b.len == 0 && b.ref == 0 && b.cap >= s.caps[i]
  }

  ghost predicate Inv(s: State) {
    && Ascending(s.caps) && |s.sizes| == |s.caps| && |s.queues| == |s.caps|
    && (forall i :: 0 <= i < |s.queues| ==> |s.queues[i]| <= s.sizes[i])
    && Once(s.queues)
    && (forall i, p :: 0 <= i < |s.queues| && 0 <= p < |s.queues[i]| ==> StoredOk(s, i, p))
    && (forall id :: 0 <= id < |s.buffers| ==> s.buffers[id].len <= s.buffers[id].cap && s.buffers[id].ref >= 0)
  }

  /** A new buffer is in no queue. */
  lemma NewKeeps(s: State, b: Buffer)
    requires Inv(s) && b.len <= b.cap && b.ref >= 0
    ensures Inv(s.(buffers := s.buffers + [b]))
    ensures forall j, p :: 0 <= j < |s.queues| && 0 <= p < |s.queues[j]| ==> s.queues[j][p] != |s.buffers|
  {
    var s' := s.(buffers := s.buffers + [b]);
    forall j, p | 0 <= j < |s'.queues| && 0 <= p < |s'.queues[j]| ensures StoredOk(s', j, p) && s.queues[j][p] != |s.buffers| {
      assert StoredOk(s, j, p);
    }
  }

  lemma FillKeeps(s: State, i: nat, backing: nat)
    requires Inv(s) && Enabled(s, Fill(i, backing))
    ensures Inv(Step(s, Fill(i, backing)))
  {
    var b := Buffer(0, backing, 0, false);
    NewKeeps(s, b);
    StoreKeeps(s.(buffers := s.buffers + [b]), |s.buffers|, i);
  }

  lemma TakeKeeps(s: State, k: nat)
    requires Inv(s) && k < |s.queues| && s.queues[k] != [] && s.queues[k][0] < |s.buffers|
    ensures var id := s.queues[k][0];
            Inv(s.Put(id, s.buffers[id].(held := true)).(queues := s.queues[k := s.queues[k][1..]]))
  {
    var id := s.queues[k][0];
    var s' := s.Put(id, s.buffers[id].(held := true)).(queues := s.queues[k := s.queues[k][1..]]);
    OnceTake(s.queues, k);
    forall j, p | 0 <= j < |s'.queues| && 0 <= p < |s'.queues[j]| ensures StoredOk(s', j, p) {
      assert StoredOk(s, j, if j == k then p + 1 else p);
    }
  }

  lemma GetKeeps(s: State, capacity: int, backing: nat)
    requires Inv(s) && Enabled(s, Get(capacity, backing))
    ensures Inv(GetStep(s, capacity, backing))
  {
    if Available(s, capacity) {
      TakeKeeps(s, GetFrom(s.caps, capacity, 0));
    } else {
      NewKeeps(s, Buffer(0, backing, 0, true));
    }
  }

  lemma HolderKeeps(s: State, id: nat, b: Buffer)
    requires Inv(s) && s.Holding(id) && b.len <= b.cap && b.ref >= 0
    ensures Inv(s.Put(id, b))
  {
    var s' := s.Put(id, b);
    forall j, p | 0 <= j < |s'.queues| && 0 <= p < |s'.queues[j]| ensures StoredOk(s', j, p) {
      assert StoredOk(s, j, p);
    }
  }

  /** A held buffer is in no queue. */
  lemma HeldNotStored(s: State, id: nat)
    requires Inv(s) && s.Holding(id)
    ensures forall j, p :: 0 <= j < |s.queues| && 0 <= p < |s.queues[j]| ==> s.queues[j][p] != id
  {
    forall j, p | 0 <= j < |s.queues| && 0 <= p < |s.queues[j]| ensures s.queues[j][p] != id {
      assert StoredOk(s, j, p);
    }
  }

  /** A buffer that is empty and without references is let go by its holder. */
  lemma LetGoKeeps(s: State, id: nat, b: Buffer)
    requires Inv(s) && s.Holding(id) && b.len == 0 && b.ref == 0 && !b.held
    ensures Inv(s.Put(id, b))
  {
    HeldNotStored(s, id);
    var s' := s.Put(id, b);
    forall j, p | 0 <= j < |s'.queues| && 0 <= p < |s'.queues[j]| ensures StoredOk(s', j, p) {
      assert StoredOk(s, j, p);
    }
  }

  /** And then it can be stored, where it is large enough. */
  lemma StoreKeeps(s: State, id: nat, i: nat)
    requires Inv(s) && i < |s.queues| && |s.queues[i]| < s.sizes[i] && id < |s.buffers|
    requires var b := s.buffers[id]; !b.held && b.len == 0 && b.ref == 0 && b.cap >= s.caps[i]
    requires forall j, p :: 0 <= j < |s.queues| && 0 <= p < |s.queues[j]| ==> s.queues[j][p] != id
    ensures Inv(s.(queues := s.queues[i := s.queues[i] + [id]]))
  {
    var s' := s.(queues := s.queues[i := s.queues[i] + [id]]);
    OnceAdd(s.queues, i, id);
    forall j, p | 0 <= j < |s'.queues| && 0 <= p < |s'.queues[j]| ensures StoredOk(s', j, p) {
      assert p < |s.queues[j]| ==> StoredOk(s, j, p);
    }
  }

  lemma FinalizeKeeps(s: State, id: nat)
    requires Inv(s) && Enabled(s, Finalize(id))
    ensures Inv(FinalizeStep(s, id))
  {
    var b := s.buffers[id];
    var i := PutBefore(s.caps, b.cap, |s.caps|);
    HeldNotStored(s, id);
    LetGoKeeps(s, id, b.(len := 0, held := false));
    if i > 0 && TakesBack(s, b.cap, i - 1) {
      StoreKeeps(s.Put(id, b.(len := 0, held := false)), id, i - 1);
    }
  }

  lemma InvStep(s: State, a: Action)
    requires Inv(s) && Enabled(s, a)
    ensures Inv(Step(s, a))
  {
    match a
    case Fill(i, backing) => FillKeeps(s, i, backing);
    case Get(capacity, backing) => GetKeeps(s, capacity, backing);
    case Finalize(id) => FinalizeKeeps(s, id);
    case _ => HolderKeeps(s, a.id, Step(s, a).buffers[a.id]);
  }

  lemma {:induction false} InvRun(s: State, run: seq<Action>, s': State)
    requires Inv(s) && Leads(s, run, s')
    ensures Inv(s')
    decreases |run|
  {
    if run != [] {
      InvStep(s, run[0]);
      InvRun(Step(s, run[0]), run[1..], s');
    }
  }

  lemma InvReachable(s: State)
    requires Reachable(s)
    ensures Inv(s)
  {
    var s0, run :| Initial(s0) && Leads(s0, run, s);
    InvRun(s0, run, s);
  }

  // ---- what callers rely on ------------------------------------------------

  /** In every run Get answers a request with a buffer that nobody holds, that is empty and
      without references, and that is large enough, whatever earlier holders did to it; it
      comes from the smallest bucket that is large enough. */
  lemma GetDelivers(s: State, capacity: int, backing: nat)
    requires Reachable(s) && Enabled(s, Get(capacity, backing))
    ensures var id := GetId(s, capacity); var s' := Step(s, Get(capacity, backing));
            && !s.Holding(id) && s'.Holding(id)
            && s'.buffers[id].len == 0 && s'.buffers[id].ref == 0 && s'.buffers[id].cap >= capacity
            && forall i, p :: 0 <= i < |s'.queues| && 0 <= p < |s'.queues[i]| ==> s'.queues[i][p] != id
    ensures Available(s, capacity) ==>
              var k := GetFrom(s.caps, capacity, 0);
              forall j :: 0 <= j < |s.caps| && s.caps[j] >= capacity ==> s.caps[k] <= s.caps[j]
    ensures !Available(s, capacity) && capacity <= MaxCapacity(s.caps) && 1 <= capacity ==>
              exists k :: 0 <= k < |s.caps| && capacity <= s.caps[k] <= Step(s, Get(capacity, backing)).buffers[GetId(s, capacity)].cap
  {
    InvReachable(s);
    GetBestFit(s.caps, capacity);
    GetKeeps(s, capacity, backing);
    var id, s' := GetId(s, capacity), Step(s, Get(capacity, backing));
    if Available(s, capacity) {
      assert StoredOk(s, GetFrom(s.caps, capacity, 0), 0);
    }
    forall i, p | 0 <= i < |s'.queues| && 0 <= p < |s'.queues[i]| ensures s'.queues[i][p] != id {
      assert StoredOk(s', i, p);
    }
  }

  /** A finalized buffer goes to the largest bucket that it is large enough for, if that has
      room and the buffer is not larger than the largest bucket; otherwise it is let go. */
  lemma FinalizeBestFit(s: State, id: nat, i: nat)
    requires Reachable(s) && Enabled(s, Finalize(id)) && i < |s.caps|
    ensures var s' := Step(s, Finalize(id)); var cap := s.buffers[id].cap;
            && |s'.queues| == |s.queues| == |s.sizes| == |s.caps|
            && (s'.queues[i] == s.queues[i] + [id] <==>
                  && cap <= MaxCapacity(s.caps) && s.caps[i] <= cap && |s.queues[i]| < s.sizes[i]
                  && forall j :: i < j < |s.caps| ==> s.caps[j] > cap)
            && (s'.queues[i] == s.queues[i] + [id] || s'.queues[i] == s.queues[i])
  {
    InvReachable(s);
    var cap, s' := s.buffers[id].cap, Step(s, Finalize(id));
    PutBeforeIff(s.caps, cap, i);
    assert s.queues[i] != s.queues[i] + [id];
    assert s'.queues[i] == s.queues[i] + [id] <==> TakesBack(s, cap, i);
  }

  /** Appending where there is room does not change the capacity, whatever append would choose;
      otherwise it is what append chooses. */
  lemma AppendCapacity(s: State, id: nat, n: nat, newCap: nat)
    requires Enabled(s, AppendAll(id, n, newCap)) && Enabled(s, Append(id, newCap))
    ensures var b, b' := s.buffers[id], Step(s, AppendAll(id, n, newCap)).buffers[id];
            b'.len == b.len + n && b'.cap == if b.len + n <= b.cap then b.cap else newCap
    ensures Step(s, AppendAll(id, 1, newCap)) == Step(s, Append(id, newCap))
  {
  }

  /** Finalize does not look at the references: a buffer finalized with some is stored with
      them, and the next Get hands it out so.  The condition of Finalize is needed. */
  lemma FinalizeKeepsReferences(s: State, id: nat, i: nat, capacity: int)
    requires Reachable(s) && s.Holding(id)
    requires TakesBack(s, s.buffers[id].cap, i) && s.queues[i] == []
    requires GetFrom(s.caps, capacity, 0) == i && capacity <= MaxCapacity(s.caps)
    ensures var s' := FinalizeStep(s, id);
            Available(s', capacity) && GetId(s', capacity) == id && s'.buffers[id].ref == s.buffers[id].ref
  {
  }

  const ONE_BUCKET: State := State([1], [1], [[]], [])

  const REFERENCED: State := State([1], [1], [[]], [Buffer(0, 1, 1, true)])

  /** That happens: a buffer is taken, referenced, and finalized with its reference. */
  lemma ReferenceSurvives()
    ensures Reachable(REFERENCED) && REFERENCED.Holding(0)
    ensures var s' := FinalizeStep(REFERENCED, 0); Available(s', 1) && GetId(s', 1) == 0 && s'.buffers[0].ref == 1
  {
    var run := [Get(1, 1), IncRef(0)];
    var s1 := Step(ONE_BUCKET, Get(1, 1));
    assert s1.buffers == [Buffer(0, 1, 0, true)];
    assert Step(s1, IncRef(0)) == REFERENCED;
    assert run[1..] == [IncRef(0)] && run[1..][1..] == [];
    assert Leads(s1, run[1..], REFERENCED);
    assert Initial(ONE_BUCKET) && Leads(ONE_BUCKET, run, REFERENCED);
    FinalizeKeepsReferences(REFERENCED, 0, 0, 1);
  }
}
