/**
 What extended durations mean: how long every unit is, told by parsing alone, which error a
 malformed duration gets, and the durations of the package's own tests (time/duration_test.go).
 */
module DurationUnits {
  import opened Common
  import opened Duration

  // ---- int64 ---------------------------------------------------------------

  lemma Int64Range()
    ensures TWO64 == Pow2(64) && MIN_INT64 + Pow2(63) == 0 && MAX_INT64 + 1 == Pow2(63)
  {
    Powers();
  }

  /** Wrapping leaves the one int64 that differs by a multiple of 2^64. */
  lemma WrapIsInt64(x: int)
    ensures IsInt64(Wrap(x)) && (x - Wrap(x)) % TWO64 == 0
  {
    var y := x + TWO63;
    assert x - Wrap(x) == y / TWO64 * TWO64;
  }

  // ---- the units -----------------------------------------------------------

  /** A number of one unit, as it is written. */
  function Written(n: nat, unit: string): string {
    Itoa(n) + unit
  }

  /** It is read as that many times the unit, on an int64. */
  lemma ReadOne(us: Units, n: nat, unit: string, negative: bool)
    requires Good(us) && unit in us.table
    ensures Parse(us, Sign(negative) + Written(n, unit)) == Ok(Wrap(Signed(negative, n * us.table[unit])))
  {
    var c := Component(Itoa(n), unit);
    ItoaNumber(n);
    assert [c][1..] == [];
    assert Sum(us, [c]) == Amount(us, c);
    assert Render([c]) == Written(n, unit);
    ParseAccepts(us, Sign(negative) + Written(n, unit), negative, [c]);
  }

  lemma ReadPlain(us: Units, n: nat, unit: string)
    requires Good(us) && unit in us.table
    ensures Parse(us, Written(n, unit)) == Ok(Wrap(n * us.table[unit]))
  {
    ReadOne(us, n, unit, false);
    assert Sign(false) + Written(n, unit) == Written(n, unit);
  }

  /** n of a unit is read as the same duration as k * n of another. */
  ghost predicate Is(us: Units, unit: string, k: nat, smaller: string) {
    forall n: nat :: Parse(us, Written(n, unit)) == Parse(us, Written(k * n, smaller))
  }

  lemma Multiple(us: Units, unit: string, k: nat, smaller: string)
    requires Good(us) && unit in us.table && smaller in us.table && us.table[unit] == k * us.table[smaller]
    ensures Is(us, unit, k, smaller)
  {
    var v := us.table[smaller];
    forall n: nat ensures Parse(us, Written(n, unit)) == Parse(us, Written(k * n, smaller)) {
      Associate(n, k, v);
      ReadPlain(us, n, unit);
      ReadPlain(us, k * n, smaller);
    }
  }

  lemma Associate(n: nat, k: nat, v: nat)
    ensures n * (k * v) == k * n * v
  {
  }

  /** There are eleven units. A nanosecond is one; a microsecond is 1000 of them, a millisecond
      1000 of these, and so on: 60 seconds are a minute, 60 of these an hour, 24 of these a day,
      and 7, 30 and 365 days a week, a month and a year. */
  lemma UnitLengths()
    ensures forall unit :: unit in UNITS.table <==> unit in {"ns", "us", "ms", "s", "m", "min", "h", "d", "w", "mon", "y"}
    ensures forall n: nat :: Parse(UNITS, Written(n, "ns")) == Ok(Wrap(n))
    ensures Is(UNITS, "us", 1000, "ns") && Is(UNITS, "ms", 1000, "us") && Is(UNITS, "s", 1000, "ms")
    ensures Is(UNITS, "m", 60, "s") && Is(UNITS, "min", 60, "s") && Is(UNITS, "h", 60, "m") && Is(UNITS, "d", 24, "h")
    ensures Is(UNITS, "w", 7, "d") && Is(UNITS, "mon", 30, "d") && Is(UNITS, "y", 365, "d")
  {
    UnitsGood();
    forall n: nat ensures Parse(UNITS, Written(n, "ns")) == Ok(Wrap(n)) {
      ReadPlain(UNITS, n, "ns");
    }
    ShortUnits(UNITS);
    LongUnits(UNITS);
  }

  lemma ShortUnits(us: Units)
    requires Good(us) && us.table == DURATION_UNITS
    ensures Is(us, "us", 1000, "ns") && Is(us, "ms", 1000, "us") && Is(us, "s", 1000, "ms")
    ensures Is(us, "m", 60, "s") && Is(us, "min", 60, "s") && Is(us, "h", 60, "m")
  {
    Multiple(us, "us", 1000, "ns");
    Multiple(us, "ms", 1000, "us");
    Multiple(us, "s", 1000, "ms");
    Multiple(us, "m", 60, "s");
    Multiple(us, "min", 60, "s");
    Multiple(us, "h", 60, "m");
  }

  lemma LongUnits(us: Units)
    requires Good(us) && us.table == DURATION_UNITS
    ensures Is(us, "d", 24, "h") && Is(us, "w", 7, "d") && Is(us, "mon", 30, "d") && Is(us, "y", 365, "d")
  {
    Multiple(us, "d", 24, "h");
    Multiple(us, "w", 7, "d");
    Multiple(us, "mon", 30, "d");
    Multiple(us, "y", 365, "d");
  }

  // ---- errors --------------------------------------------------------------

  /** What is left of the text s has no value, no unit or an unknown one. */
  ghost predicate Malformed(us: Units, s: string, tail: string, e: ParseError) {
    match e
    case DurationEmpty => false
    case NoValueSpecified(text) => text == s && tail == s && tail != [] && !IsDigit(tail[0])
    case NoUnitGiven(text) => text == s && tail != [] && AllDigits(tail)
    case InvalidUnit(text, unit) => text == s && unit !in us.table && exists digits, rest :: IsCut(tail, digits, unit, rest)
  }

  /** A run of digits, a run of other characters, and what begins with a digit again. */
  ghost predicate IsCut(tail: string, digits: string, unit: string, rest: string) {
    && tail == digits + unit + rest && digits != [] && AllDigits(digits)
    && unit != [] && (forall i :: 0 <= i < |unit| ==> !IsDigit(unit[i]))
    && (rest != [] ==> IsDigit(rest[0]))
  }

  /** The text is components and a malformed rest. */
  ghost predicate FailsAt(us: Units, s: string, cs: seq<Component>, tail: string, e: ParseError) {
    AllComponents(us, cs) && s == Render(cs) + tail && Malformed(us, s, tail, e)
  }

  /** The tokenizer gets past one component at i, to j. */
  ghost predicate GoesOn(us: Units, s: string, i: nat, j: nat, c: Component) {
    && i < j <= |s| && IsComponent(us, c) && s[i..] == c.digits + c.unit + s[j..] && (j < |s| ==> IsDigit(s[j]))
    && Components(us, s, i) == Prepend([c], Components(us, s, j))
  }

  /** When it fails, it fails here or gets past one component. */
  lemma FailsHereOrLater(us: Units, s: string, i: nat) returns (j: nat, c: Component)
    requires i <= |s| && (i == |s| || i == 0 || IsDigit(s[i])) && Components(us, s, i).Err?
    ensures Malformed(us, s, s[i..], Components(us, s, i).error) || GoesOn(us, s, i, j, c)
  {
    j, c := i, Component("", "");
    if !IsDigit(s[i]) {
      assert s[0..] == s;
    } else {
      var a := RunEnd(s, i, true);
      if a < |s| {
        j := RunEnd(s, a, false);
        c := Component(s[i..a], s[a..j]);
        JoinSlices(s, i, a, j);
        if s[a..j] !in us.table {
          assert IsCut(s[i..], s[i..a], s[a..j], s[j..]);
        }
      }
    }
  }

  /** The error that the tokenizer gives tells what is wrong, from i on ... */
  lemma {:induction false} ErrorMeans(us: Units, s: string, i: nat) returns (cs: seq<Component>, tail: string)
    requires i <= |s| && (i == |s| || i == 0 || IsDigit(s[i]))
    requires Components(us, s, i).Err?
    ensures AllComponents(us, cs) && s[i..] == Render(cs) + tail && Malformed(us, s, tail, Components(us, s, i).error)
    decreases |s| - i
  {
    var j, c := FailsHereOrLater(us, s, i);
    if Malformed(us, s, s[i..], Components(us, s, i).error) {
      cs, tail := [], s[i..];
    } else {
      cs, tail := ErrorMeans(us, s, j);
      RenderCons(c, cs);
      Reassociate(c.digits + c.unit, Render(cs), tail);
      cs := [c] + cs;
    }
  }

  /** ... and what is wrong determines the error. */
  lemma {:induction false} MeansError(us: Units, s: string, i: nat, cs: seq<Component>, tail: string, e: ParseError)
    requires Good(us) && i <= |s| && AllComponents(us, cs) && s[i..] == Render(cs) + tail && Malformed(us, s, tail, e)
    requires cs != [] || i > 0 ==> !e.NoValueSpecified?
    ensures Components(us, s, i) == Err(e)
    decreases |cs|
  {
    if cs == [] {
      assert s[i..] == tail;
      TailError(us, s, i, tail, e);
    } else {
      var c, rest := cs[0], cs[1..];
      assert cs == [c] + rest;
      RenderCons(c, rest);
      var a, b := i + |c.digits|, i + |c.digits| + |c.unit|;
      Reassociate(c.digits + c.unit, Render(rest), tail);
      SliceHead(s, i, c, Render(rest) + tail);
      NextIsDigit(us, s, b, rest, tail, e);
      CutsAt(us, s, i, a, b, c);
      MeansError(us, s, b, rest, tail, e);
      assert s[i] == s[i..a][0];
    }
  }

  lemma SliceHead(s: string, i: nat, c: Component, more: string)
    requires i <= |s| && s[i..] == c.digits + c.unit + more
    ensures var a, b := i + |c.digits|, i + |c.digits| + |c.unit|;
            WrittenAt(s, i, a, b, c) && s[b..] == more
  {
    var t, a, b := s[i..], i + |c.digits|, i + |c.digits| + |c.unit|;
    assert forall j :: 0 <= j < |t| ==> s[i + j] == t[j];
    assert s[i..a] == t[..|c.digits|] && s[a..b] == t[|c.digits|..][..|c.unit|];
    assert s[b..] == t[|c.digits| + |c.unit|..];
  }

  lemma NextIsDigit(us: Units, s: string, b: nat, rest: seq<Component>, tail: string, e: ParseError)
    requires b <= |s| && AllComponents(us, rest) && s[b..] == Render(rest) + tail
    requires Malformed(us, s, tail, e) && !e.NoValueSpecified?
    ensures b < |s| && IsDigit(s[b])
  {
    RenderHead(us, rest);
    assert tail != [] && IsDigit(tail[0]);
    assert s[b..][0] == if rest == [] then tail[0] else Render(rest)[0];
  }

  lemma TailError(us: Units, s: string, i: nat, tail: string, e: ParseError)
    requires i <= |s| && s[i..] == tail && Malformed(us, s, tail, e) && (i > 0 ==> !e.NoValueSpecified?)
    ensures Components(us, s, i) == Err(e)
  {
    match e
    case NoUnitGiven(_) =>
      assert forall j :: i <= j < |s| ==> s[j] == tail[j - i];
      RunEndIs(s, i, true, |s|);
    case InvalidUnit(_, unit) =>
      var digits, rest :| IsCut(tail, digits, unit, rest);
      CutError(us, s, i, digits, unit, rest);
    case _ =>
  }

  lemma CutError(us: Units, s: string, i: nat, digits: string, unit: string, rest: string)
    requires i <= |s| && IsCut(s[i..], digits, unit, rest) && unit !in us.table
    ensures Components(us, s, i) == Err(InvalidUnit(s, unit))
  {
    SliceHead(s, i, Component(digits, unit), rest);
    var a, b := i + |digits|, i + |digits| + |unit|;
    assert forall j :: i <= j < a ==> s[j] == s[i..a][j - i];
    assert forall j :: a <= j < b ==> s[j] == s[a..b][j - a];
    assert b < |s| ==> s[b] == s[b..][0];
    RunEndIs(s, i, true, a);
    RunEndIs(s, a, false, b);
  }

  /** What follows the sign. */
  function Body(text: string): string {
    if text != [] && text[0] == '-' then text[1..] else text
  }

  /** A duration is refused with exactly the error that fits: empty, or, after the sign,
      components and then no value, no unit or an unknown unit; errors quote what follows
      the sign. */
  lemma ErrorIff(us: Units, text: string, e: ParseError)
    requires Good(us)
    ensures Parse(us, text) == Err(e) <==>
              if text == [] then e == DurationEmpty
              else exists cs, tail :: FailsAt(us, Body(text), cs, tail, e)
  {
    if text != [] {
      if Components(us, Body(text), 0).Err? {
        BodyFails(us, Body(text));
      }
      forall cs, tail | FailsAt(us, Body(text), cs, tail, e) ensures Components(us, Body(text), 0) == Err(e) {
        FailureIsError(us, Body(text), cs, tail, e);
      }
    }
  }

  lemma BodyFails(us: Units, body: string)
    requires Components(us, body, 0).Err?
    ensures exists cs, tail :: FailsAt(us, body, cs, tail, Components(us, body, 0).error)
  {
    assert body[0..] == body;
    var cs, tail := ErrorMeans(us, body, 0);
    assert FailsAt(us, body, cs, tail, Components(us, body, 0).error);
  }

  lemma FailureIsError(us: Units, body: string, cs: seq<Component>, tail: string, e: ParseError)
    requires Good(us) && FailsAt(us, body, cs, tail, e)
    ensures Components(us, body, 0) == Err(e)
  {
    assert body[0..] == body;
    if e.NoValueSpecified? {
      RenderHead(us, cs);
    }
    MeansError(us, body, 0, cs, tail, e);
  }

  // ---- the durations of the package's tests --------------------------------

  lemma SumOfTwo(us: Units, c: Component, d: Component)
    requires IsComponent(us, c) && IsComponent(us, d)
    ensures AllComponents(us, [c, d]) && Sum(us, [c, d]) == Amount(us, c) + Amount(us, d)
  {
    var cs := [c, d];
    assert cs[1..] == [d] && cs[1..][1..] == [];
    assert Sum(us, cs[1..]) == Amount(us, d);
  }

  lemma RenderTwo(c: Component, d: Component)
    ensures Render([c, d]) == c.digits + c.unit + (d.digits + d.unit)
  {
    RenderCons(d, []);
    RenderCons(c, [d]);
    assert [c] + [d] == [c, d] && [d] + [] == [d];
    assert d.digits + d.unit + "" == d.digits + d.unit;
  }

  lemma ReadTotal(text: string, negative: bool, cs: seq<Component>, total: int)
    requires AllComponents(UNITS, cs) && cs != [] && text == Sign(negative) + Render(cs)
    requires total == Signed(negative, Sum(UNITS, cs)) && IsInt64(total)
    ensures Parse(UNITS, text) == Ok(total)
  {
    UnitsGood();
    WrapInt64(total);
    ParseAccepts(UNITS, text, negative, cs);
  }

  /** A number of one unit is read as its total ... */
  lemma ReadSingle(text: string, negative: bool, n: nat, u: string, total: int)
    requires u in UNITS.table && text == Sign(negative) + Written(n, u)
    requires total == Signed(negative, n * UNITS.table[u]) && IsInt64(total)
    ensures Parse(UNITS, text) == Ok(total)
  {
    UnitsGood();
    WrapInt64(total);
    ReadOne(UNITS, n, u, negative);
  }

  /** ... and so are two. */
  lemma ReadTwo(text: string, negative: bool, n: nat, u: string, m: nat, v: string, total: int)
    requires u in UNITS.table && v in UNITS.table
    requires text == Sign(negative) + (Written(n, u) + Written(m, v))
    requires total == Signed(negative, n * UNITS.table[u] + m * UNITS.table[v]) && IsInt64(total)
    ensures Parse(UNITS, text) == Ok(total)
  {
    var c, d := Component(Itoa(n), u), Component(Itoa(m), v);
    ItoaNumber(n);
    ItoaNumber(m);
    SumOfTwo(UNITS, c, d);
    RenderTwo(c, d);
    ReadTotal(text, negative, [c, d], total);
  }

  lemma SmallNumbers()
    ensures Itoa(1) == "1" && Itoa(4) == "4" && Itoa(5) == "5" && Itoa(6) == "6" && Itoa(10) == "10" && Itoa(334) == "334" && Itoa(999) == "999"
  {
    assert Itoa(33) == "33" && Itoa(99) == "99";
  }

  lemma ParsedMicroseconds(text: string)
    requires text == "334us"
    ensures Parse(UNITS, text) == Ok(334_000)
  {
    SmallNumbers();
    ReadSingle(text, false, 334, "us", 334_000);
  }

  lemma ParsedNegative(text: string)
    requires text == "-334us"
    ensures Parse(UNITS, text) == Ok(-334_000)
  {
    SmallNumbers();
    ReadSingle(text, true, 334, "us", -334_000);
  }

  lemma ParsedMinutes(text: string)
    requires text == "-5m4ms"
    ensures Parse(UNITS, text) == Ok(-300_004_000_000)
  {
    SmallNumbers();
    ReadTwo(text, true, 5, "m", 4, "ms", -300_004_000_000);
  }

  lemma ParsedMonths(text: string)
    requires text == "1y6mon"
    ensures Parse(UNITS, text) == Ok((365 + 6 * 30) * 86_400_000_000_000)
  {
    SmallNumbers();
    ReadTwo(text, false, 1, "y", 6, "mon", (365 + 6 * 30) * 86_400_000_000_000);
  }

  /** Durations without a unit, a value, or anything. */
  lemma RefusedDurations()
    ensures Parse(UNITS, "") == Err(DurationEmpty)
    ensures Parse(UNITS, "4") == Err(NoUnitGiven("4"))
    ensures Parse(UNITS, "--4d") == Err(NoValueSpecified("-4d"))
    ensures Parse(UNITS, ",3490") == Err(NoValueSpecified(",3490"))
  {
    RefusedAtOnce(UNITS, "4");
    RefusedAtOnce(UNITS, "-4d");
    RefusedAtOnce(UNITS, ",3490");
    assert "--4d"[1..] == "-4d";
  }

  lemma RefusedAtOnce(us: Units, body: string)
    requires body != []
    ensures AllDigits(body) ==> Components(us, body, 0) == Err(NoUnitGiven(body))
    ensures !IsDigit(body[0]) ==> Components(us, body, 0) == Err(NoValueSpecified(body))
  {
    if AllDigits(body) {
      RunEndIs(body, 0, true, |body|);
    }
  }

  lemma RefusedUnit(text: string)
    requires text == "4minutes"
    ensures Parse(UNITS, text) == Err(InvalidUnit(text, "minutes"))
  {
    CutError(UNITS, text, 0, "4", "minutes", "");
  }

  lemma RefusedTail(text: string)
    requires text == "4d3"
    ensures Parse(UNITS, text) == Err(NoUnitGiven(text))
  {
    var c := Component("4", "d");
    UnitsGood();
    RenderCons(c, []);
    assert [c] + [] == [c] && Render([c]) == "4d" && text == "4d" + "3";
    FailureIsError(UNITS, text, [c], "3", NoUnitGiven(text));
  }

  /** Units that are too long are skipped. */
  lemma {:induction false} Skips(n: int, k: nat, j: nat)
    requires n > 0 && k <= j < |UNITS.printed| && forall i :: k <= i < j ==> n < UNITS.printed[i].value
    ensures Decompose(UNITS, n, k) == Decompose(UNITS, n, j)
    decreases j - k
  {
    if k < j {
      Skips(n, k + 1, j);
    }
  }

  /** n is q of unit k, and the rest. */
  lemma Takes(n: int, k: nat, q: nat)
    requires k < |UNITS.printed| && q > 0
    requires var v := UNITS.printed[k].value; q * v <= n < (q + 1) * v
    ensures var u := UNITS.printed[k];
            Render(Decompose(UNITS, n, k)) == Written(q, u.name) + Render(Decompose(UNITS, n - q * u.value, k + 1))
  {
    var u := UNITS.printed[k];
    Quotient(n, q, u.value);
    RenderStep(UNITS, n, k);
  }

  lemma Quotient(n: int, q: nat, v: Positive)
    requires q * v <= n < (q + 1) * v
    ensures n / v == q && n % v == n - q * v
  {
    var d := n / v;
    assert d * v <= n < (d + 1) * v;
    if d < q {
      ProductLe(d + 1, q, v);
    } else if d > q {
      ProductLe(q + 1, d, v);
    }
  }

  lemma ProductLe(a: int, b: int, v: Positive)
    requires a <= b
    ensures a * v <= b * v
  {
  }

  lemma PrintedZero(d: int)
    requires d == 0
    ensures Print(UNITS, d) == "0s"
  {
  }

  lemma PrintedMilliseconds(d: int)
    requires d == 999_000_000
    ensures Print(UNITS, d) == "999ms"
  {
    Skips(d, 0, 5);
    Takes(d, 5, 999);
    SmallNumbers();
  }

  /** Two units, the second of which leaves nothing. */
  lemma PrintsTwo(n: int, k: nat, q: nat, j: nat, p: nat)
    requires k < j < |UNITS.printed| && q > 0 && p > 0 && n == q * UNITS.printed[k].value + p * UNITS.printed[j].value
    requires forall i :: 0 <= i < k ==> n < UNITS.printed[i].value
    requires forall i :: k <= i < j ==> p * UNITS.printed[j].value < UNITS.printed[i].value
    ensures Render(Decompose(UNITS, n, 0)) == Written(q, UNITS.printed[k].name) + Written(p, UNITS.printed[j].name)
  {
    var v, w := UNITS.printed[k].value, UNITS.printed[j].value;
    Between(q, v, p * w);
    Between(p, w, 0);
    Skips(n, 0, k);
    Takes(n, k, q);
    Skips(p * w, k + 1, j);
    Takes(p * w, j, p);
    assert Render(Decompose(UNITS, 0, j + 1)) == "";
  }

  lemma Between(q: nat, v: Positive, rest: nat)
    requires rest < v
    ensures q * v <= q * v + rest < (q + 1) * v
    ensures q > 0 ==> q * v > 0
  {
  }

  lemma PrintedMinutes(d: int)
    requires d == 70_000_000_000
    ensures Print(UNITS, d) == "1m10s"
  {
    PrintsTwo(d, 3, 1, 4, 10);
    SmallNumbers();
  }

  lemma PrintedDays(d: int)
    requires d == -90_000_000_000_000
    ensures Print(UNITS, d) == "-1d1h"
  {
    PrintsTwo(-d, 1, 1, 2, 1);
    SmallNumbers();
  }
}
