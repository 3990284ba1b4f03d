/**
 How a bucketized pool chooses its buckets (pool/bucketized.go).  The capacities are sorted
 when the pool is made.
 */
module PoolBuckets {

  ghost predicate Ascending(caps: seq<int>) {
    forall i, j :: 0 <= i < j < |caps| ==> caps[i] <= caps[j]
  }

  /** The capacity above which nothing is pooled. */
  function MaxCapacity(caps: seq<int>): int {
    if caps == [] then 0 else caps[|caps| - 1]
  }

  /** The scan of Get from the small end, having passed i buckets; the length if none fits. */
  function GetFrom(caps: seq<int>, capacity: int, i: nat): (k: nat)
    requires i <= |caps|
    ensures i <= k <= |caps|
    ensures forall j :: i <= j < k ==> caps[j] < capacity
    ensures k < |caps| ==> caps[k] >= capacity
    decreases |caps| - i
  {
    if i < |caps| && caps[i] < capacity then GetFrom(caps, capacity, i + 1) else i
  }

  /** The scan of Put from the large end, with k buckets left; the bucket after the one
      that takes the object, or zero. */
  function PutBefore(caps: seq<int>, capacity: int, k: nat): (i: nat)
    requires k <= |caps|
    ensures i <= k
    ensures forall j :: i <= j < k ==> caps[j] > capacity
    ensures i > 0 ==> caps[i - 1] <= capacity
  {
    if k > 0 && capacity < caps[k - 1] then PutBefore(caps, capacity, k - 1) else k
  }

  /** The backing pool gives nil for less than one byte, and otherwise enough. */
  predicate Enough(capacity: int, backing: nat) {
    if capacity < 1 then backing == 0 else backing >= capacity
  }

  /** The capacity Get allocates with when it has nothing to hand out, which is the
      bucket's and not the request's when there is a bucket. */
  function AllocCapacity(caps: seq<int>, capacity: int): int {
    var k := GetFrom(caps, capacity, 0);
    if capacity > MaxCapacity(caps) || k == |caps| then capacity else caps[k]
  }

  /** The stores after Get has taken the first of the smallest bucket that is large enough, if
      that has any. */
  function TakenFrom<T>(stores: seq<seq<T>>, caps: seq<int>, capacity: int): seq<seq<T>> {
    var k := GetFrom(caps, capacity, 0);
    if capacity <= MaxCapacity(caps) && k < |caps| && k < |stores| && stores[k] != [] then stores[k := stores[k][1..]] else stores
  }

  /** The stores after Put of an object of this capacity: the largest bucket that it is large
      enough for takes it, if that has room and the object is not larger than all buckets. */
  function PutInto<T>(stores: seq<seq<T>>, caps: seq<int>, sizes: seq<nat>, capacity: int, x: T): seq<seq<T>> {
    var i := PutBefore(caps, capacity, |caps|);
    if capacity <= MaxCapacity(caps) && 0 < i <= |stores| && i <= |sizes| && |stores[i - 1]| < sizes[i - 1]
    then stores[i - 1 := stores[i - 1] + [x]]
    else stores
  }

  /** Get takes the smallest bucket that is large enough; there is one, unless the request
      exceeds the largest bucket or there are no buckets. */
  lemma GetBestFit(caps: seq<int>, capacity: int)
    requires Ascending(caps)
    ensures var k := GetFrom(caps, capacity, 0);
            && (k < |caps| ==> forall j :: 0 <= j < |caps| && caps[j] >= capacity ==> caps[k] <= caps[j])
            && (k == |caps| <==> caps == [] || capacity > MaxCapacity(caps))
  {
  }

  /** Bucket i takes an object exactly when it is the last one that the object is large
      enough for. */
  lemma PutBeforeIff(caps: seq<int>, capacity: int, i: nat)
    requires Ascending(caps) && i < |caps|
    ensures PutBefore(caps, capacity, |caps|) == i + 1 <==> caps[i] <= capacity && forall j :: i < j < |caps| ==> caps[j] > capacity
  {
    var k := PutBefore(caps, capacity, |caps|);
    if k > 0 && k - 1 < i {
      assert caps[i] > capacity;
    } else if k > i + 1 {
      assert caps[k - 1] <= capacity;
    }
  }

  /** Put takes the largest bucket that the object is large enough for. */
  lemma PutBestFit(caps: seq<int>, capacity: int)
    requires Ascending(caps)
    ensures var i := PutBefore(caps, capacity, |caps|);
            && (i > 0 ==> forall j :: 0 <= j < |caps| && caps[j] <= capacity ==> caps[j] <= caps[i - 1])
            && (i == 0 <==> forall j :: 0 <= j < |caps| ==> caps[j] > capacity)
  {
  }
}
