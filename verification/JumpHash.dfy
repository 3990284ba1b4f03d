/**
 Jump consistent hashing (hash/jump), after "A Fast, Minimal Memory, Consistent
 Hash Algorithm", arXiv:1406.2294.

 The loop multiplies float64 numbers.  Here a float64 is a real, and every
 float64 operation is the exact operation followed by a rounding function that
 the module takes as a parameter.  All that is known about that function is
 `Float64Rounding`, which IEEE 754 rounding to nearest satisfies on the numbers
 that occur here.  The conversion to int64 is a parameter as well; all that is
 known about it is `Int64Conversion`.
 */
module JumpHash {

  const TWO31: int := 0x8000_0000
  const TWO32: int := 0x1_0000_0000
  const TWO33: int := 0x2_0000_0000
  const TWO53: int := 0x20_0000_0000_0000
  const TWO63: int := 0x8000_0000_0000_0000
  const TWO64: int := 0x1_0000_0000_0000_0000
  const MULTIPLIER: int := 2862933555777941757

  type Uint64 = k: int | 0 <= k < TWO64

  /** The step of the loop: from bucket b and the new generator state to the next bucket. */
  type Stepper = (int, Uint64) -> int

  function Real(m: int): real {
    m as real
  }

  function Shifted(m: int): real {
    m as real * 2147483648.0
  }

  /** Rounding is monotone, and leaves a number alone that is m or m * 2^31 with m
      an integer of at most 53 bits. */
  ghost predicate Float64Rounding(rnd: real -> real) {
    && (forall x, y :: x <= y ==> rnd(x) <= rnd(y))
    && (forall m {:trigger rnd(Real(m))} :: 0 <= m <= TWO53 ==> rnd(Real(m)) == Real(m))
    && (forall m {:trigger rnd(Shifted(m))} :: 0 <= m <= TWO53 ==> rnd(Shifted(m)) == Shifted(m))
  }

  function NextKey(key: Uint64): Uint64 {
    (key * MULTIPLIER + 1) % TWO64
  }

  /** float64(1<<31) / float64((key>>33)+1) */
  function Ratio(rnd: real -> real, key: Uint64): real {
    var d := rnd(Real(key / TWO33 + 1));
    if d == 0.0 then 0.0 else rnd(rnd(Real(TWO31)) / d)
  }

  function Product(x: real, y: real): real {
    x * y
  }

  function Scaled(rnd: real -> real, m: int, q: real): real {
    rnd(Product(rnd(Real(m)), q))
  }

  /** float64(b+1) * ratio */
  function Target(rnd: real -> real, b: int, key: Uint64): real {
    Scaled(rnd, b + 1, Ratio(rnd, key))
  }

  /** The conversion to int64 drops the fraction of a non-negative number that fits; what it
      makes of one that does not is up to the implementation. */
  ghost predicate Int64Conversion(conv: real -> int) {
    forall x :: 0.0 <= x < Real(TWO63) ==> conv(x) == x.Floor
  }

  function JumpStep(rnd: real -> real, conv: real -> int): Stepper {
    (b: int, key: Uint64) => conv(Target(rnd, b, key))
  }

  lemma QuotientBounds(a: real, k: real)
    requires 1.0 <= k <= a
    ensures 1.0 <= a / k <= a
  {
    var q := a / k;
    assert q * k == a;
    assert q < 1.0 ==> q * k < 1.0 * k;
    assert q > a ==> q * k >= q * 1.0;
  }

  lemma Monotone(rnd: real -> real, x: real, y: real)
    requires Float64Rounding(rnd)
    requires x <= y
    ensures rnd(x) <= rnd(y)
  {
  }

  lemma RatioBounds(rnd: real -> real, key: Uint64)
    requires Float64Rounding(rnd)
    ensures 1.0 <= Ratio(rnd, key) <= 2147483648.0
  {
    var k := key / TWO33 + 1;
    assert 1 <= k <= TWO31;
    assert rnd(Real(k)) == Real(k);
    assert rnd(Real(TWO31)) == Real(TWO31);
    QuotientBounds(Real(TWO31), Real(k));
    assert rnd(Real(1)) == Real(1);
    assert rnd(Real(1)) <= rnd(Real(TWO31) / Real(k)) <= rnd(Real(TWO31));
  }

  lemma ProductBounds(x: real, q: real, hi: real)
    requires 0.0 <= x && 1.0 <= q <= hi
    ensures x <= x * q <= x * hi
  {
    assert x * (q - 1.0) >= 0.0;
    assert x * (hi - q) >= 0.0;
  }

  lemma ProductBetween(m: int, q: real)
    requires 0 <= m && 1.0 <= q <= 2147483648.0
    ensures Real(m) <= Product(Real(m), q) <= Shifted(m)
  {
    ProductBounds(m as real, q, 2147483648.0);
  }

  /** A product between x and top stays there when it is rounded. */
  lemma RoundedBetween(rnd: real -> real, x: real, y: real, top: real)
    requires Float64Rounding(rnd)
    requires x <= y <= top && rnd(x) == x && rnd(top) == top
    ensures x <= rnd(y) <= top
  {
    Monotone(rnd, x, y);
    Monotone(rnd, y, top);
  }

  lemma ScaledBounds(rnd: real -> real, m: int, q: real)
    requires Float64Rounding(rnd)
    requires 0 <= m <= TWO53 && 1.0 <= q <= 2147483648.0
    ensures Real(m) <= Scaled(rnd, m, q) <= Shifted(m)
  {
    ProductBetween(m, q);
    assert rnd(Real(m)) == Real(m) && rnd(Shifted(m)) == Shifted(m);
    RoundedBetween(rnd, Real(m), Product(Real(m), q), Shifted(m));
  }

  /** Each jump goes strictly forward. */
  lemma JumpAdvances(rnd: real -> real, conv: real -> int, b: int, key: Uint64)
    requires Float64Rounding(rnd) && Int64Conversion(conv)
    requires 0 <= b < TWO53 && Target(rnd, b, key) < Real(TWO63)
    ensures b < JumpStep(rnd, conv)(b, key) < TWO63
  {
    RatioBounds(rnd, key);
    ScaledBounds(rnd, b + 1, Ratio(rnd, key));
    FloorBetween(b + 1, Target(rnd, b, key));
  }

  lemma FloorBetween(m: int, y: real)
    requires Real(m) <= y < Real(TWO63)
    ensures m <= y.Floor < TWO63
  {
  }

  /** The product fits an int64 whatever the key exactly when the bucket is below 2^32 - 1:
      where the generator's upper bits are zero it is (b+1) * 2^31. */
  lemma AlwaysFitsIff(rnd: real -> real, b: int)
    requires Float64Rounding(rnd) && 0 <= b < TWO53
    ensures (forall key :: Target(rnd, b, key) < Real(TWO63)) <==> b < TWO32 - 1
  {
    if b < TWO32 - 1 {
      forall key ensures Target(rnd, b, key) < Real(TWO63) {
        SmallFits(rnd, b, key);
      }
    } else {
      LargeOverflows(rnd, b);
    }
  }

  lemma SmallFits(rnd: real -> real, b: int, key: Uint64)
    requires Float64Rounding(rnd) && 0 <= b < TWO32 - 1
    ensures Target(rnd, b, key) < Real(TWO63)
  {
    RatioBounds(rnd, key);
    ScaledBounds(rnd, b + 1, Ratio(rnd, key));
    assert Shifted(b + 1) < Real(TWO63);
  }

  lemma LargeOverflows(rnd: real -> real, b: int)
    requires Float64Rounding(rnd) && TWO32 - 1 <= b < TWO53
    ensures Target(rnd, b, 0) >= Real(TWO63)
  {
    assert rnd(Real(1)) == Real(1) && rnd(Real(TWO31)) == Real(TWO31);
    assert Ratio(rnd, 0) == 2147483648.0;
    assert rnd(Real(b + 1)) == Real(b + 1) && rnd(Shifted(b + 1)) == Shifted(b + 1);
    assert Product(Real(b + 1), 2147483648.0) == Shifted(b + 1);
    assert Shifted(b + 1) >= Shifted(TWO32) == Real(TWO63);
  }

  // ---- the bucket sequence that the paper describes ------------------------

  /** The generator state after i steps. */
  ghost function KeyAt(key: Uint64, i: nat): Uint64 {
    if i == 0 then key else NextKey(KeyAt(key, i - 1))
  }

  /** The bucket the key is in after its i-th move, as buckets are added one by one. */
  ghost function Move(step: Stepper, key: Uint64, i: nat): int {
    if i == 0 then 0 else step(Move(step, key, i - 1), KeyAt(key, i))
  }

  /** After i moves the key is in r, all moves so far were inside the n buckets,
      and the next one leaves them. */
  ghost predicate IsHashAt(step: Stepper, key: Uint64, n: int, r: int, i: nat) {
    && Move(step, key, i) == r
    && n <= Move(step, key, i + 1)
    && forall l: nat :: l <= i ==> 0 <= Move(step, key, l) < n
  }

  /** r is the last bucket of the key's sequence that exists among n buckets. */
  ghost predicate IsHash(step: Stepper, key: Uint64, n: int, r: int) {
    exists i: nat :: IsHashAt(step, key, n, r, i)
  }

  /** From the buckets below n that the key gets to, it moves strictly forward. */
  ghost predicate Advances(step: Stepper, key: Uint64, n: int) {
    forall i: nat :: AdvancesAt(step, key, n, i)
  }

  ghost predicate AdvancesAt(step: Stepper, key: Uint64, n: int, i: nat) {
    0 <= Move(step, key, i) < n ==> Move(step, key, i) < Move(step, key, i + 1)
  }

  /** From the buckets below n that the key gets to, the products fit an int64. */
  ghost predicate Fits(rnd: real -> real, conv: real -> int, key: Uint64, n: int) {
    forall i: nat :: FitsAt(rnd, conv, key, n, i)
  }

  ghost predicate FitsAt(rnd: real -> real, conv: real -> int, key: Uint64, n: int, i: nat) {
    var b := Move(JumpStep(rnd, conv), key, i);
    0 <= b < n ==> Target(rnd, b, KeyAt(key, i + 1)) < Real(TWO63)
  }

  /** Below 2^32 buckets they do for every key. */
  lemma FewBucketsFit(rnd: real -> real, conv: real -> int, key: Uint64, n: int)
    requires Float64Rounding(rnd) && n < TWO32
    ensures Fits(rnd, conv, key, n)
  {
    forall i: nat ensures FitsAt(rnd, conv, key, n, i) {
      var b := Move(JumpStep(rnd, conv), key, i);
      if 0 <= b < n {
        SmallFits(rnd, b, KeyAt(key, i + 1));
      }
    }
  }

  lemma FitsAdvances(rnd: real -> real, conv: real -> int, key: Uint64, n: int)
    requires Float64Rounding(rnd) && Int64Conversion(conv) && n <= TWO53 && Fits(rnd, conv, key, n)
    ensures Advances(JumpStep(rnd, conv), key, n)
  {
    var step := JumpStep(rnd, conv);
    forall i: nat ensures AdvancesAt(step, key, n, i) {
      if 0 <= Move(step, key, i) < n {
        assert FitsAt(rnd, conv, key, n, i);
        JumpAdvances(rnd, conv, Move(step, key, i), KeyAt(key, i + 1));
      }
    }
  }

  lemma {:induction false} MovesIncrease(step: Stepper, key: Uint64, n: int, i: nat, k: nat)
    requires Advances(step, key, n)
    requires i < k
    requires forall l: nat :: i <= l < k ==> 0 <= Move(step, key, l) < n
    ensures Move(step, key, i) < Move(step, key, k)
    decreases k - i
  {
    assert AdvancesAt(step, key, n, k - 1);
    if i < k - 1 {
      MovesIncrease(step, key, n, i, k - 1);
    }
  }

  // ---- the loop ------------------------------------------------------------

  method Hash(rnd: real -> real, conv: real -> int, key: Uint64, numBuckets: int) returns (r: int)
    requires Float64Rounding(rnd) && Int64Conversion(conv)
    requires numBuckets < TWO32 || (numBuckets <= TWO53 && Fits(rnd, conv, key, numBuckets))
    ensures numBuckets < 0 ==> r == -1
    ensures numBuckets == 0 ==> r == 0
    ensures numBuckets >= 1 ==> 0 <= r < numBuckets && IsHash(JumpStep(rnd, conv), key, numBuckets, r)
  {
    if numBuckets < 0 {
      return -1;
    }
    if numBuckets < TWO32 {
      FewBucketsFit(rnd, conv, key, numBuckets);
    }
    FitsAdvances(rnd, conv, key, numBuckets);
    r := HashLoop(JumpStep(rnd, conv), key, numBuckets);
  }

  /** The loop, for any step that goes forward. */
  method HashLoop(step: Stepper, key: Uint64, numBuckets: int) returns (b: int)
    requires 0 <= numBuckets && Advances(step, key, numBuckets)
    ensures numBuckets == 0 ==> b == 0
    ensures numBuckets >= 1 ==> 0 <= b < numBuckets && IsHash(step, key, numBuckets, b)
  {
    b := 0;
    var j, k := 0, key;
    ghost var i: nat := 0;
    while j < numBuckets
      invariant 0 <= b <= j && (i == 0 ==> b == j)
      invariant k == KeyAt(key, i) && j == Move(step, key, i)
      invariant i > 0 ==> b == Move(step, key, i - 1)
      invariant forall l: nat :: l < i ==> 0 <= Move(step, key, l) < numBuckets
      decreases numBuckets - j
    {
      b := j;
      k := NextKey(k);
      j := step(b, k);
      assert AdvancesAt(step, key, numBuckets, i);
      i := i + 1;
    }
    if numBuckets > 0 {
      assert IsHashAt(step, key, numBuckets, b, i - 1);
    }
  }

  // ---- what callers rely on ------------------------------------------------

  /** Consistency: with more buckets a key stays where it was or moves to a new bucket. */
  lemma Consistent(step: Stepper, key: Uint64, m: int, n: int, rm: int, rn: int)
    requires 1 <= m <= n && Advances(step, key, n)
    requires IsHash(step, key, m, rm) && IsHash(step, key, n, rn)
    ensures rn == rm || rn >= m
  {
    var i: nat :| IsHashAt(step, key, m, rm, i);
    var k: nat :| IsHashAt(step, key, n, rn, k);
    if k > i + 1 {
      MovesIncrease(step, key, n, i + 1, k);
    }
  }

  /** The bucket is a function of the key and the number of buckets. */
  lemma HashUnique(step: Stepper, key: Uint64, n: int, r: int, r': int)
    requires IsHash(step, key, n, r) && IsHash(step, key, n, r')
    ensures r == r'
  {
    var i: nat :| IsHashAt(step, key, n, r, i);
    var k: nat :| IsHashAt(step, key, n, r', k);
  }

  /** A caller that grows from m to n buckets: a key stays in its bucket or moves to one of
      the new ones, and a single bucket that is added takes keys only for itself. */
  method Grow(rnd: real -> real, conv: real -> int, key: Uint64, m: int, n: int) returns (before: int, after: int)
    requires Float64Rounding(rnd) && Int64Conversion(conv)
    requires 1 <= m <= n && (n < TWO32 || (n <= TWO53 && Fits(rnd, conv, key, n)))
    ensures 0 <= before < m && 0 <= after < n
    ensures after == before || m <= after
    ensures n == m ==> after == before
    ensures n == m + 1 ==> after == before || after == m
  {
    if n < TWO32 {
      FewBucketsFit(rnd, conv, key, n);
    }
    FitsAdvances(rnd, conv, key, n);
    FewerFit(rnd, conv, key, m, n);
    before := Hash(rnd, conv, key, m);
    after := Hash(rnd, conv, key, n);
    Consistent(JumpStep(rnd, conv), key, m, n, before, after);
    if m == n {
      HashUnique(JumpStep(rnd, conv), key, m, before, after);
    }
  }

  lemma FewerFit(rnd: real -> real, conv: real -> int, key: Uint64, m: int, n: int)
    requires m <= n && Fits(rnd, conv, key, n)
    ensures Fits(rnd, conv, key, m)
  {
    forall i: nat ensures FitsAt(rnd, conv, key, m, i) {
      assert FitsAt(rnd, conv, key, n, i);
    }
  }
}
