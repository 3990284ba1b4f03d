/**
 What the jumps of `JumpHash` are: the distribution that the paper asks for, proved for exact
 arithmetic, the generator that drives them, and one hash computed.
 */
module JumpLaw {
  import opened Common
  import opened JumpHash

  lemma Constants()
    ensures TWO31 == Pow2(31) && TWO32 == Pow2(32) && TWO33 == Pow2(33)
    ensures TWO53 == Pow2(53) && TWO63 == Pow2(63) && TWO64 == Pow2(64)
  {
    Powers();
  }

  // ---- exact arithmetic ----------------------------------------------------

  const EXACT: real -> real := x => x

  const FLOOR: real -> int := (x: real) => x.Floor

  lemma ExactRounds()
    ensures Float64Rounding(EXACT) && Int64Conversion(FLOOR)
  {
  }

  // ---- the law of the jumps ------------------------------------------------

  /** A state of the generator, by its upper 31 bits and its lower 33. */
  function State(upper: int, lower: int): Uint64
    requires 0 <= upper < TWO31 && 0 <= lower < TWO33
  {
    upper * TWO33 + lower
  }

  /** The upper bits with which the jump from bucket b goes to i or further. */
  ghost function Reaching(b: int, i: int, lower: int): set<nat>
    requires 0 <= b < i && 0 <= lower < TWO33
  {
    set upper: nat | 0 <= upper < TWO31 && JumpStep(EXACT, FLOOR)(b, State(upper, lower)) >= i
  }

  lemma RealProduct(a: nat, b: nat)
    ensures (a * b) as real == a as real * b as real
  {
  }

  lemma RealProductMonotone(x: real, y: real, d: real)
    requires d > 0.0
    ensures x >= y <==> x * d >= y * d
  {
    if x >= y {
      assert (x - y) * d >= 0.0;
    } else {
      assert (y - x) * d > 0.0;
    }
  }

  /** n / (u + 1) is at least i when u + 1 is at most n / i. */
  lemma QuotientAtLeast(n: nat, u: nat, i: nat)
    requires i >= 1
    ensures n as real / (u + 1) as real >= i as real <==> u < n / i
  {
    var d, q := u + 1, n as real / (u + 1) as real;
    assert q * d as real == n as real;
    RealProductMonotone(q, i as real, d as real);
    RealProduct(i, d);
    AtMostQuotient(n, d, i);
  }

  lemma AtMostQuotient(n: nat, d: nat, i: nat)
    requires i >= 1
    ensures i * d <= n <==> d <= n / i
  {
    var q := n / i;
    assert i * q <= n < i * (q + 1);
    if d <= q {
      assert i * d <= i * q;
    } else {
      assert i * (q + 1) <= i * d;
    }
  }

  lemma FloorAtLeast(x: real, i: int)
    ensures x.Floor >= i <==> x >= i as real
  {
  }

  /** The exact target is (b + 1) * 2^31 over one more than the upper bits. */
  lemma ExactTarget(b: nat, upper: nat, lower: nat)
    requires upper < TWO31 && lower < TWO33
    ensures Target(EXACT, b, State(upper, lower)) == ((b + 1) * TWO31) as real / (upper + 1) as real
  {
    assert State(upper, lower) / TWO33 == upper;
    var m, t, d := (b + 1) as real, TWO31 as real, (upper + 1) as real;
    assert Target(EXACT, b, State(upper, lower)) == m * (t / d);
    MovesProduct(m, t, d);
  }

  lemma MovesProduct(m: real, t: real, d: real)
    requires d > 0.0
    ensures m * (t / d) == m * t / d
  {
    assert m * (t / d) * d == m * (t / d * d);
  }

  /** From bucket b, exactly floor((b + 1) * 2^31 / i) of the 2^31 values of the upper bits lead
      to bucket i or further, for every i beyond b, whatever the lower bits are: a jump goes that
      far with probability (b + 1) / i, as the paper asks. */
  lemma JumpDistribution(b: nat, i: nat, lower: nat)
    requires b < i && lower < TWO33
    ensures Reaching(b, i, lower) == Below((b + 1) * TWO31 / i)
    ensures |Reaching(b, i, lower)| == (b + 1) * TWO31 / i
  {
    var q := (b + 1) * TWO31 / i;
    BoundedQuotient(b, i);
    forall u: nat ensures u in Reaching(b, i, lower) <==> u < q {
      if u < TWO31 {
        ExactTarget(b, u, lower);
        QuotientAtLeast((b + 1) * TWO31, u, i);
        FloorAtLeast(Target(EXACT, b, State(u, lower)), i);
      }
    }
    BelowSize(q);
  }

  lemma BoundedQuotient(b: nat, i: nat)
    requires b < i
    ensures (b + 1) * TWO31 / i <= TWO31
  {
    assert (b + 1) * TWO31 <= i * TWO31;
    AtMostQuotient((b + 1) * TWO31, TWO31 + 1, i);
  }

  // ---- rounding ------------------------------------------------------------

  /** float64(m), x / y and x * y of the source, each rounded once. */
  function FromInt(rnd: real -> real, m: int): real {
    rnd(m as real)
  }

  function Over(rnd: real -> real, x: real, y: real): real {
    if y == 0.0 then 0.0 else rnd(x / y)
  }

  function Times(rnd: real -> real, x: real, y: real): real {
    rnd(x * y)
  }

  /** Whatever the rounding, the target is computed by these three conversions, one division
      and one multiplication, in this order. */
  lemma TargetRounds(rnd: real -> real, b: int, key: Uint64)
    ensures Target(rnd, b, key) ==
              Times(rnd, FromInt(rnd, b + 1), Over(rnd, FromInt(rnd, TWO31), FromInt(rnd, key / TWO33 + 1)))
  {
    var m, t, d := FromInt(rnd, b + 1), FromInt(rnd, TWO31), FromInt(rnd, key / TWO33 + 1);
    assert m == rnd(Real(b + 1)) && t == rnd(Real(TWO31)) && d == rnd(Real(key / TWO33 + 1));
    var q := Over(rnd, t, d);
    assert q == Ratio(rnd, key);
    assert Times(rnd, m, q) == rnd(Product(m, q));
  }

  // ---- the generator -------------------------------------------------------

  /** The inverse of the multiplier modulo 2^64. */
  const INVERSE: int := 16133697096952638549

  /** The state before. */
  function PreviousKey(key: Uint64): Uint64 {
    (key - 1) * INVERSE % TWO64
  }

  lemma ModAdd(a: int, c: int)
    ensures (a % TWO64 + c) % TWO64 == (a + c) % TWO64
  {
    var k := a / TWO64;
    assert a == a % TWO64 + k * TWO64;
    Multiples(a % TWO64 + c, k);
  }

  lemma ModMul(a: int, c: int)
    ensures (a % TWO64) * c % TWO64 == a * c % TWO64
  {
    var k := a / TWO64;
    assert a == a % TWO64 + k * TWO64;
    assert a * c == (a % TWO64) * c + (k * c) * TWO64;
    Multiples((a % TWO64) * c, k * c);
  }

  lemma Multiples(a: int, k: int)
    ensures (a + k * TWO64) % TWO64 == a % TWO64
  {
    assert a + k * TWO64 == (a / TWO64 + k) * TWO64 + a % TWO64;
  }

  /** Multiplying by both leaves a state as it is. */
  lemma InverseCancels(k: int)
    ensures k * INVERSE * MULTIPLIER % TWO64 == k % TWO64
    ensures k * MULTIPLIER * INVERSE % TWO64 == k % TWO64
  {
    var c := 2503948805982125087;
    assert INVERSE * MULTIPLIER == 1 + c * TWO64;
    assert k * INVERSE * MULTIPLIER == k * (INVERSE * MULTIPLIER) == k + (k * c) * TWO64;
    assert k * MULTIPLIER * INVERSE == k * (INVERSE * MULTIPLIER);
    Multiples(k, k * c);
  }

  /** The generator goes through states that never merge: it has an inverse, and so is a
      bijection on uint64. It starts from 0 with 1 and 2862933555777941758, and is determined by
      these two, because it is affine. */
  lemma GeneratorIsBijection(key: Uint64)
    ensures NextKey(PreviousKey(key)) == key && PreviousKey(NextKey(key)) == key
  {
    NextOfPrevious(key);
    PreviousOfNext(key);
  }

  lemma NextOfPrevious(key: Uint64)
    ensures NextKey(PreviousKey(key)) == key
  {
    NextOfMod((key - 1) * INVERSE);
    var p := (key - 1) * INVERSE * MULTIPLIER;
    ModAdd(p, 1);
    InverseCancels(key - 1);
    ModAdd(key - 1, 1);
  }

  lemma PreviousOfNext(key: Uint64)
    ensures PreviousKey(NextKey(key)) == key
  {
    var n := key * MULTIPLIER;
    assert NextKey(key) == (n + 1) % TWO64;
    ModAdd(n + 1, -1);
    ModMul(NextKey(key) - 1, INVERSE);
    ModMul(n, INVERSE);
    InverseCancels(key);
  }

  lemma GeneratorStates()
    ensures KeyAt(0, 1) == 1 && KeyAt(0, 2) == 2862933555777941758
  {
    assert KeyAt(0, 0) == 0;
  }

  lemma ModSum(m: int, n: int)
    ensures ((m + 1) % TWO64 + (n + 1) % TWO64 - 1) % TWO64 == (m + n + 1) % TWO64
  {
    ModAdd(m + 1, (n + 1) % TWO64 - 1);
    ModAdd(n + 1, m);
  }

  lemma NextOfMod(k: int)
    ensures NextKey(k % TWO64) == (k * MULTIPLIER + 1) % TWO64
  {
    ModMul(k, MULTIPLIER);
    ModAdd(k % TWO64 * MULTIPLIER, 1);
    ModAdd(k * MULTIPLIER, 1);
  }

  lemma GeneratorIsAffine(a: Uint64, b: Uint64)
    ensures NextKey((a + b) % TWO64) == (NextKey(a) + NextKey(b) - 1) % TWO64
  {
    NextOfMod(a + b);
    ModSum(a * MULTIPLIER, b * MULTIPLIER);
    assert (a + b) * MULTIPLIER + 1 == a * MULTIPLIER + b * MULTIPLIER + 1;
  }

  // ---- one hash ------------------------------------------------------------

  /** Key 1 goes to bucket 6 of 10: from bucket 0 to 6, and from there beyond the last. */
  lemma HashOfOne()
    ensures IsHash(JumpStep(EXACT, FLOOR), 1, 10, 6)
  {
    var step := JumpStep(EXACT, FLOOR);
    var k1, k2 := 2862933555777941758, 7520437575244155655;
    assert KeyAt(1, 0) == 1;
    assert KeyAt(1, 1) == k1;
    assert KeyAt(1, 2) == k2;
    OneJump(0, 333289331, k1, 6);
    OneJump(6, 875494160, k2, 17);
    assert Move(step, 1, 0) == 0 && Move(step, 1, 1) == 6 && Move(step, 1, 2) == 17;
    assert IsHashAt(step, 1, 10, 6, 1);
  }

  lemma OneJump(b: nat, upper: nat, key: Uint64, to: nat)
    requires upper < TWO31 && key / TWO33 == upper && to >= 1
    requires to * (upper + 1) <= (b + 1) * TWO31 < (to + 1) * (upper + 1)
    ensures JumpStep(EXACT, FLOOR)(b, key) == to
  {
    var lower := key % TWO33;
    assert key == State(upper, lower);
    ExactTarget(b, upper, lower);
    QuotientBetween((b + 1) * TWO31, upper + 1, to);
  }

  lemma QuotientBetween(n: nat, d: nat, to: nat)
    requires d >= 1 && to >= 1 && to * d <= n < (to + 1) * d
    ensures (n as real / d as real).Floor == to
  {
    AtMostQuotient(n, d, to);
    AtMostQuotient(n, d, to + 1);
    QuotientAtLeast(n, d - 1, to);
    QuotientAtLeast(n, d - 1, to + 1);
    FloorAtLeast(n as real / d as real, to);
    FloorAtLeast(n as real / d as real, to + 1);
  }
}
