/**
 Extended durations (time/duration.go, time/unit.go): a parser that adds up
 number-and-unit components, and a printer that splits a duration greedily over
 the units in descending order.  All arithmetic is on int64 and wraps; `Wrap` is
 written out wherever the source can overflow.
 */
module Duration {

  const TWO63: int := 0x8000_0000_0000_0000
  const TWO64: int := 0x1_0000_0000_0000_0000
  const MIN_INT64: int := -TWO63
  const MAX_INT64: int := TWO63 - 1

  /** The int64 that a two's complement computation of x leaves. */
  function Wrap(x: int): int {
    (x + TWO63) % TWO64 - TWO63
  }

  lemma WrapMultiple(x: int, k: int)
    ensures Wrap(x + k * TWO64) == Wrap(x)
  {
    var y := x + TWO63;
    assert y + k * TWO64 == (y / TWO64 + k) * TWO64 + y % TWO64;
  }

  lemma WrapAdd(a: int, b: int)
    ensures Wrap(Wrap(a) + b) == Wrap(a + b) == Wrap(a + Wrap(b))
  {
    WrapMultiple(Wrap(a) + b, (a + TWO63) / TWO64);
    WrapMultiple(a + Wrap(b), (b + TWO63) / TWO64);
  }

  lemma WrapMul(a: int, c: int)
    ensures Wrap(Wrap(a) * c) == Wrap(a * c)
  {
    var k := (a + TWO63) / TWO64;
    assert a == Wrap(a) + k * TWO64;
    assert a * c == Wrap(a) * c + (k * c) * TWO64 by {
      assert (Wrap(a) + k * TWO64) * c == Wrap(a) * c + k * TWO64 * c;
    }
    WrapMultiple(Wrap(a) * c, k * c);
  }

  // ---- units ---------------------------------------------------------------

  const NANOSECOND: int := 1
  const MICROSECOND: int := 1_000
  const MILLISECOND: int := 1_000_000
  const SECOND: int := 1_000_000_000
  const MINUTE: int := 60_000_000_000
  const HOUR: int := 3_600_000_000_000

  /** The units the parser knows. */
  const DURATION_UNITS: map<string, nat> := map[
    "s" := SECOND, "min" := MINUTE, "m" := MINUTE, "h" := HOUR,
    "d" := HOUR * 24, "w" := HOUR * 24 * 7, "mon" := HOUR * 24 * 30, "y" := HOUR * 24 * 365,
    "us" := MICROSECOND, "ms" := MILLISECOND, "ns" := NANOSECOND]

  datatype Unit = NoUnit | Second | Millisecond | Microsecond | Nanosecond | Minute | Hour | Day | Year

  predicate IsValid(u: Unit) {
    !u.NoUnit?
  }

  function Value(u: Unit): int
    requires IsValid(u)
  {
    match u
    case Second => SECOND
    case Millisecond => MILLISECOND
    case Microsecond => MICROSECOND
    case Nanosecond => NANOSECOND
    case Minute => MINUTE
    case Hour => HOUR
    case Day => HOUR * 24
    case Year => HOUR * 24 * 365
  }

  function Name(u: Unit): string
    requires IsValid(u)
  {
    match u
    case Second => "s"
    case Millisecond => "ms"
    case Nanosecond => "ns"
    case Microsecond => "us"
    case Minute => "m"
    case Hour => "h"
    case Day => "d"
    case Year => "y"
  }

  /** The valid units, sorted by descending duration when the package is initialised. */
  const UNITS_DESC: seq<Unit> := [Year, Day, Hour, Minute, Second, Millisecond, Microsecond, Nanosecond]

  type Positive = n: int | n >= 1 witness 1

  datatype PrintUnit = PrintUnit(name: string, value: Positive)

  /** What the parser and the printer know of units. */
  datatype Units = Units(table: map<string, nat>, printed: seq<PrintUnit>)

  const UNITS: Units := Units(DURATION_UNITS,
    [PrintUnit("y", HOUR * 24 * 365), PrintUnit("d", HOUR * 24), PrintUnit("h", HOUR), PrintUnit("m", MINUTE),
     PrintUnit("s", SECOND), PrintUnit("ms", MILLISECOND), PrintUnit("us", MICROSECOND), PrintUnit("ns", NANOSECOND)])

  /** The printed units descend to a unit of one, the parser reads each printed name as
      the printer means it, and no unit's name could be taken for a number or a sign. */
  ghost predicate Good(us: Units) {
    && |us.printed| > 0
    && us.printed[|us.printed| - 1].value == 1
    && (forall i, j :: 0 <= i < j < |us.printed| ==> us.printed[i].value > us.printed[j].value)
    && (forall i :: 0 <= i < |us.printed| ==>
          us.printed[i].name in us.table && us.table[us.printed[i].name] == us.printed[i].value)
    && (forall u :: u in us.table ==> us.table[u] >= 1 && IsUnitText(u))
    && "s" in us.table
  }

  predicate IsUnitText(u: string) {
    u != [] && forall i :: 0 <= i < |u| ==> !IsDigit(u[i]) && u[i] != '-'
  }

  /** The package's tables are good ... */
  lemma UnitsGood()
    ensures Good(UNITS)
  {
    UnitNames();
    PrintedNames();
    PrintedSorted();
  }

  /** ... and the printed units are the valid ones. */
  lemma UnitsDesc()
    ensures forall u: Unit :: u in UNITS_DESC <==> IsValid(u)
    ensures |UNITS.printed| == |UNITS_DESC|
    ensures forall i :: 0 <= i < |UNITS_DESC| ==>
              UNITS_DESC[i] in UNITS_DESC && UNITS.printed[i] == PrintUnit(Name(UNITS_DESC[i]), Value(UNITS_DESC[i]))
  {
    UnitPlaces();
    forall i | 0 <= i < |UNITS_DESC|
      ensures UNITS_DESC[i] in UNITS_DESC && UNITS.printed[i] == PrintUnit(Name(UNITS_DESC[i]), Value(UNITS_DESC[i]))
    {
    }
  }

  lemma UnitPlaces()
    ensures forall u: Unit :: u in UNITS_DESC <==> IsValid(u)
  {
    assert UNITS_DESC[0] == Year && UNITS_DESC[1] == Day && UNITS_DESC[2] == Hour && UNITS_DESC[3] == Minute;
    assert UNITS_DESC[4] == Second && UNITS_DESC[5] == Millisecond && UNITS_DESC[6] == Microsecond && UNITS_DESC[7] == Nanosecond;
  }

  lemma PrintedSorted()
    ensures forall i, j :: 0 <= i < j < |UNITS.printed| ==> UNITS.printed[i].value > UNITS.printed[j].value
  {
  }

  lemma UnitNames()
    ensures forall u :: u in DURATION_UNITS ==> DURATION_UNITS[u] >= 1 && IsUnitText(u)
  {
    forall u | u in DURATION_UNITS ensures DURATION_UNITS[u] >= 1 && IsUnitText(u) {
      assert u in {"s", "min", "m", "h", "d", "w", "mon", "y", "us", "ms", "ns"};
    }
  }

  lemma PrintedNames()
    ensures forall i :: 0 <= i < |UNITS.printed| ==>
              UNITS.printed[i].name in DURATION_UNITS && DURATION_UNITS[UNITS.printed[i].name] == UNITS.printed[i].value
  {
  }

  // ---- numbers -------------------------------------------------------------

  predicate IsDigit(c: char) {
    '0' <= c <= '9'
  }

  function Digit(c: char): (n: nat)
    requires IsDigit(c)
    ensures n < 10
  {
    c as int - '0' as int
  }

  predicate AllDigits(s: string) {
    forall i :: 0 <= i < |s| ==> IsDigit(s[i])
  }

  /** The number that a run of digits denotes. */
  function Number(s: string): nat
    requires AllDigits(s)
  {
    if s == [] then 0 else 10 * Number(s[..|s| - 1]) + Digit(s[|s| - 1])
  }

  /** strconv.Itoa */
  function Itoa(n: nat): (s: string)
    ensures s != [] && AllDigits(s)
  {
    var c := ('0' as int + n % 10) as char;
    if n < 10 then [c] else Itoa(n / 10) + [c]
  }

  /** Itoa writes the number, without leading zeros ... */
  lemma {:induction false} ItoaNumber(n: nat)
    ensures Number(Itoa(n)) == n
    ensures n > 0 ==> Itoa(n)[0] != '0'
  {
    var s := Itoa(n);
    if n >= 10 {
      ItoaNumber(n / 10);
      assert s[..|s| - 1] == Itoa(n / 10);
    } else {
      assert s[..|s| - 1] == [];
    }
  }

  /** ... and is the only such way to write it. */
  lemma {:induction false} NumberItoa(s: string)
    requires s != [] && AllDigits(s) && s[0] != '0'
    ensures Number(s) > 0 && Itoa(Number(s)) == s
  {
    var front, c := s[..|s| - 1], s[|s| - 1];
    assert s == front + [c];
    if front != [] {
      NumberItoa(front);
      assert Number(s) / 10 == Number(front) && Number(s) % 10 == Digit(c);
    } else {
      assert Number(front) == 0;
    }
  }

  // ---- components ----------------------------------------------------------

  datatype Component = Component(digits: string, unit: string)

  predicate IsComponent(us: Units, c: Component) {
    c.digits != [] && AllDigits(c.digits) && c.unit in us.table
  }

  predicate AllComponents(us: Units, cs: seq<Component>) {
    forall i :: 0 <= i < |cs| ==> IsComponent(us, cs[i])
  }

  function Amount(us: Units, c: Component): nat
    requires IsComponent(us, c)
  {
    Number(c.digits) * us.table[c.unit]
  }

  function Sum(us: Units, cs: seq<Component>): nat
    requires AllComponents(us, cs)
  {
    if cs == [] then 0 else Amount(us, cs[0]) + Sum(us, cs[1..])
  }

  function Render(cs: seq<Component>): string {
    if cs == [] then "" else cs[0].digits + cs[0].unit + Render(cs[1..])
  }

  function Sign(negative: bool): string {
    if negative then "-" else ""
  }

  function Signed(negative: bool, n: int): int {
    if negative then -n else n
  }

  // ---- the parser, as a function -------------------------------------------

  datatype ParseError =
    | DurationEmpty
    | NoValueSpecified(text: string)
    | NoUnitGiven(text: string)
    | InvalidUnit(text: string, unit: string)

  datatype Result<+T> = Ok(value: T) | Err(error: ParseError)

  /** Where the run of (non-)digits that starts at i ends. */
  function RunEnd(s: string, i: nat, digits: bool): (e: nat)
    requires i <= |s|
    ensures i <= e <= |s|
    ensures forall j :: i <= j < e ==> IsDigit(s[j]) == digits
    ensures e < |s| ==> IsDigit(s[e]) != digits
    decreases |s| - i
  {
    if i < |s| && IsDigit(s[i]) == digits then RunEnd(s, i + 1, digits) else i
  }

  /** The components of s from i on; errors quote the whole of s. */
  function Components(us: Units, s: string, i: nat): (r: Result<seq<Component>>)
    requires i <= |s|
    ensures r.Ok? ==> AllComponents(us, r.value)
    decreases |s| - i
  {
    if i == |s| then Ok([])
    else if !IsDigit(s[i]) then Err(NoValueSpecified(s))
    else
      var a := RunEnd(s, i, true);
      if a == |s| then Err(NoUnitGiven(s))
      else
        var b := RunEnd(s, a, false);
        if s[a..b] !in us.table then Err(InvalidUnit(s, s[a..b]))
        else
          var rest := Components(us, s, b);
          if rest.Err? then rest else Ok([Component(s[i..a], s[a..b])] + rest.value)
  }

  /** The parser: sign, components, and the wrapped signed sum. */
  function Parse(us: Units, s: string): Result<int> {
    if s == [] then Err(DurationEmpty)
    else
      var negative := s[0] == '-';
      var body := if negative then s[1..] else s;
      match Components(us, body, 0)
      case Err(e) => Err(e)
      case Ok(cs) => Ok(Wrap(Signed(negative, Sum(us, cs))))
  }

  // ---- the parser accepts exactly the rendered component lists -------------

  lemma {:induction false} RunEndIs(s: string, i: nat, digits: bool, e: nat)
    requires i <= e <= |s|
    requires forall j :: i <= j < e ==> IsDigit(s[j]) == digits
    requires e < |s| ==> IsDigit(s[e]) != digits
    ensures RunEnd(s, i, digits) == e
    decreases e - i
  {
    if i < e {
      RunEndIs(s, i + 1, digits, e);
    }
  }

  lemma RenderHead(us: Units, cs: seq<Component>)
    requires AllComponents(us, cs)
    ensures cs == [] ==> Render(cs) == []
    ensures cs != [] ==> Render(cs) != [] && IsDigit(Render(cs)[0])
  {
    if cs != [] {
      assert Render(cs)[0] == cs[0].digits[0];
    }
  }

  /** c is written in s from i, with the unit between a and b. */
  predicate WrittenAt(s: string, i: nat, a: nat, b: nat, c: Component) {
    i <= a <= b <= |s| && s[i..a] == c.digits && s[a..b] == c.unit
  }

  lemma Slices(s: string, i: nat, c: Component, rest: seq<Component>) returns (a: nat, b: nat)
    requires i <= |s| && s[i..] == c.digits + c.unit + Render(rest)
    ensures WrittenAt(s, i, a, b, c) && s[b..] == Render(rest)
    ensures b < |s| ==> s[b] == Render(rest)[0]
  {
    var t := s[i..];
    a := i + |c.digits|;
    b := a + |c.unit|;
    assert forall j :: 0 <= j < |t| ==> s[i + j] == t[j];
    assert s[i..a] == t[..|c.digits|];
    assert s[a..b] == t[|c.digits|..][..|c.unit|];
    assert s[b..] == t[|c.digits| + |c.unit|..];
  }

  /** A run of digits, a unit and something that does not go on with the unit are cut there. */
  lemma CutsAt(us: Units, s: string, i: nat, a: nat, b: nat, c: Component)
    requires Good(us) && IsComponent(us, c) && WrittenAt(s, i, a, b, c)
    requires b < |s| ==> IsDigit(s[b])
    ensures a < b && RunEnd(s, i, true) == a && RunEnd(s, a, false) == b
  {
    assert IsUnitText(c.unit);
    assert forall j :: i <= j < a ==> s[j] == s[i..a][j - i];
    assert forall j :: a <= j < b ==> s[j] == s[a..b][j - a];
    RunEndIs(s, i, true, a);
    RunEndIs(s, a, false, b);
  }

  lemma ComponentsStep(us: Units, s: string, i: nat, a: nat, b: nat, c: Component, rest: seq<Component>)
    requires IsComponent(us, c) && WrittenAt(s, i, a, b, c)
    requires a < b && RunEnd(s, i, true) == a && RunEnd(s, a, false) == b
    requires Components(us, s, b) == Ok(rest)
    ensures Components(us, s, i) == Ok([c] + rest)
  {
    assert s[i] == s[i..a][0];
  }

  /** Tokenizing undoes rendering: digits and units cannot be cut differently. */
  lemma {:induction false} ComponentsRender(us: Units, s: string, i: nat, cs: seq<Component>)
    requires Good(us) && i <= |s| && AllComponents(us, cs)
    requires s[i..] == Render(cs)
    ensures Components(us, s, i) == Ok(cs)
    decreases |cs|
  {
    if cs != [] {
      var c, rest := cs[0], cs[1..];
      assert cs == [c] + rest;
      RenderHead(us, rest);
      var a, b := Slices(s, i, c, rest);
      CutsAt(us, s, i, a, b, c);
      ComponentsRender(us, s, b, rest);
      ComponentsStep(us, s, i, a, b, c, rest);
    }
  }

  /** What the tokenizer returns renders to what it read. */
  lemma {:induction false} RenderComponents(us: Units, s: string, i: nat)
    requires i <= |s|
    ensures Components(us, s, i).Ok? ==> s[i..] == Render(Components(us, s, i).value)
    decreases |s| - i
  {
    if Components(us, s, i).Ok? && i < |s| {
      var a := RunEnd(s, i, true);
      var b := RunEnd(s, a, false);
      RenderComponents(us, s, b);
      var rest := Components(us, s, b).value;
      RenderCons(Component(s[i..a], s[a..b]), rest);
      JoinSlices(s, i, a, b);
    }
  }

  lemma RenderCons(c: Component, rest: seq<Component>)
    ensures Render([c] + rest) == c.digits + c.unit + Render(rest)
  {
    assert ([c] + rest)[1..] == rest;
  }

  lemma JoinSlices(s: string, i: nat, a: nat, b: nat)
    requires i <= a <= b <= |s|
    ensures s[i..] == s[i..a] + s[a..b] + s[b..]
  {
  }

  /** s is a sign and components; without a sign there is at least one. */
  ghost predicate IsDuration(us: Units, s: string, negative: bool, cs: seq<Component>) {
    && AllComponents(us, cs)
    && s == Sign(negative) + Render(cs)
    && (negative || cs != [])
  }

  /** The value of an accepted string is the signed sum of its components, modulo 2^64. */
  lemma ParseAccepts(us: Units, s: string, negative: bool, cs: seq<Component>)
    requires Good(us) && IsDuration(us, s, negative, cs)
    ensures Parse(us, s) == Ok(Wrap(Signed(negative, Sum(us, cs))))
  {
    RenderHead(us, cs);
    if negative {
      assert s[1..] == Render(cs);
      assert s[1..][0..] == Render(cs);
      ComponentsRender(us, s[1..], 0, cs);
    } else {
      assert s[0..] == Render(cs);
      ComponentsRender(us, s, 0, cs);
    }
  }

  /** What is accepted has a reading. */
  lemma ParseReads(us: Units, s: string) returns (negative: bool, cs: seq<Component>)
    requires Parse(us, s).Ok?
    ensures IsDuration(us, s, negative, cs)
  {
    negative := s[0] == '-';
    var body := if negative then s[1..] else s;
    cs := Components(us, body, 0).value;
    assert Render(cs) == body by {
      RenderComponents(us, body, 0);
      assert body[0..] == body;
    }
    assert s == Sign(negative) + body;
    assert !negative ==> cs != [];
  }

  /** The parser accepts exactly the strings that have a reading. */
  lemma ParseLanguage(us: Units, s: string)
    requires Good(us)
    ensures Parse(us, s).Ok? <==> exists negative, cs :: IsDuration(us, s, negative, cs)
  {
    if Parse(us, s).Ok? {
      var negative, cs := ParseReads(us, s);
    } else {
      forall negative, cs | IsDuration(us, s, negative, cs) ensures false {
        ParseAccepts(us, s, negative, cs);
      }
    }
  }

  /** A string has at most one reading. */
  lemma ReadingUnique(us: Units, s: string, n1: bool, cs1: seq<Component>, n2: bool, cs2: seq<Component>)
    requires Good(us)
    requires IsDuration(us, s, n1, cs1) && IsDuration(us, s, n2, cs2)
    ensures n1 == n2 && cs1 == cs2
  {
    RenderHead(us, cs1);
    RenderHead(us, cs2);
    assert n1 ==> s[0] == '-';
    assert n2 ==> s[0] == '-';
    assert !n1 ==> s[0] == Render(cs1)[0];
    assert !n2 ==> s[0] == Render(cs2)[0];
    var body := if n1 then s[1..] else s;
    assert body[0..] == Render(cs1) && body[0..] == Render(cs2);
    ComponentsRender(us, body, 0, cs1);
    ComponentsRender(us, body, 0, cs2);
  }

  // ---- the printer, as a function ------------------------------------------

  /** The greedy split of n over the units from the k-th on.  A negative n, which the
      overflowing negation of the minimum leaves, has no components. */
  function Decompose(us: Units, n: int, k: nat): seq<Component>
    requires k <= |us.printed|
    decreases |us.printed| - k
  {
    if n == 0 || k == |us.printed| then []
    else
      var u := us.printed[k];
      if n < u.value then Decompose(us, n, k + 1)
      else [Component(Itoa(n / u.value), u.name)] + Decompose(us, n % u.value, k + 1)
  }

  function Print(us: Units, d: int): string {
    if d == 0 then "0s"
    else Sign(d < 0) + Render(Decompose(us, if d < 0 then Wrap(-d) else d, 0))
  }

  /** The split of n from unit k on takes n / v of unit k, if any. */
  lemma DecomposeStep(us: Units, n: int, k: nat)
    requires Good(us) && k < |us.printed| && n >= us.printed[k].value
    ensures var u := us.printed[k];
            var cs, c, rest := Decompose(us, n, k), Component(Itoa(n / u.value), u.name), Decompose(us, n % u.value, k + 1);
            && cs == [c] + rest && cs[0] == c && cs[1..] == rest
            && n / u.value >= 1 && 0 <= n % u.value < u.value
            && IsComponent(us, c) && Amount(us, c) + n % u.value == n
  {
    var v := us.printed[k].value;
    DivisionParts(n, v);
    ItoaNumber(n / v);
  }

  lemma DivisionParts(n: int, v: int)
    requires 1 <= v <= n
    ensures n / v >= 1 && 0 <= n % v < v && n / v * v + n % v == n
  {
  }

  /** The split is made of components and loses nothing. */
  lemma {:induction false} DecomposeSum(us: Units, n: nat, k: nat)
    requires Good(us) && k <= |us.printed| && (k == |us.printed| ==> n == 0)
    ensures var cs := Decompose(us, n, k); AllComponents(us, cs) && Sum(us, cs) == n
    decreases |us.printed| - k
  {
    if n > 0 {
      var v := us.printed[k].value;
      if n < v {
        DecomposeSum(us, n, k + 1);
      } else {
        DecomposeStep(us, n, k);
        DecomposeSum(us, n % v, k + 1);
      }
    }
  }

  lemma {:induction false} DecomposeNegative(us: Units, n: int, k: nat)
    requires n < 0 && k <= |us.printed|
    ensures Decompose(us, n, k) == []
    decreases |us.printed| - k
  {
    if k < |us.printed| {
      DecomposeNegative(us, n, k + 1);
    }
  }

  // ---- round trips ---------------------------------------------------------

  predicate IsInt64(d: int) {
    MIN_INT64 <= d <= MAX_INT64
  }

  function Abs(d: int): nat {
    if d < 0 then -d else d
  }

  /** A printed duration is a sign and the components of its absolute value. */
  lemma PrintIsDuration(us: Units, d: int)
    requires Good(us) && IsInt64(d) && d != 0 && d != MIN_INT64
    ensures var cs := Decompose(us, Abs(d), 0);
            && IsDuration(us, Print(us, d), d < 0, cs) && cs != []
            && Sum(us, cs) == Abs(d)
  {
    DecomposeSum(us, Abs(d), 0);
    assert d < 0 ==> Wrap(-d) == Abs(d);
  }

  lemma ZeroString(us: Units)
    requires Good(us)
    ensures Parse(us, "0s") == Ok(0)
  {
    var zero := [Component("0", "s")];
    assert Number("0") == 0;
    assert zero[1..] == [];
    assert Render(zero) == "0s";
    assert Amount(us, zero[0]) == 0;
    assert Sum(us, zero) == 0;
    assert IsDuration(us, "0s", false, zero);
    ParseAccepts(us, "0s", false, zero);
  }

  lemma MinimumString(us: Units)
    requires Good(us)
    ensures Print(us, MIN_INT64) == "-" && Parse(us, "-") == Ok(0)
  {
    assert Wrap(-MIN_INT64) == MIN_INT64;
    DecomposeNegative(us, MIN_INT64, 0);
    assert IsDuration(us, "-", true, []);
    ParseAccepts(us, "-", true, []);
  }

  lemma ParsePrintNonzero(us: Units, d: int)
    requires Good(us) && IsInt64(d) && d != 0 && d != MIN_INT64
    ensures Parse(us, Print(us, d)) == Ok(d)
  {
    PrintIsDuration(us, d);
    ParseInt64(us, Print(us, d), d < 0, Decompose(us, Abs(d), 0), d);
  }

  lemma ParseInt64(us: Units, s: string, negative: bool, cs: seq<Component>, d: int)
    requires Good(us) && IsDuration(us, s, negative, cs)
    requires IsInt64(d) && Signed(negative, Sum(us, cs)) == d
    ensures Parse(us, s) == Ok(d)
  {
    var n := Sum(us, cs);
    WrapInt64(Signed(negative, n));
    ParseAccepts(us, s, negative, cs);
  }

  lemma WrapInt64(d: int)
    requires IsInt64(d)
    ensures Wrap(d) == d
  {
  }

  /** Parsing undoes printing for every int64 except the minimum, which prints as the
      lone sign and is read back as zero. */
  lemma ParsePrint(us: Units, d: int)
    requires Good(us) && IsInt64(d)
    ensures Parse(us, Print(us, d)) == Ok(d) <==> d != MIN_INT64
    ensures d == MIN_INT64 ==> Print(us, d) == "-" && Parse(us, Print(us, d)) == Ok(0)
  {
    if d == 0 {
      ZeroString(us);
    } else if d == MIN_INT64 {
      MinimumString(us);
    } else {
      ParsePrintNonzero(us, d);
    }
  }

  /** The list starts with a printer unit and a positive coefficient without leading
      zeros; what follows is smaller than that unit, and the whole is smaller than every
      longer unit. */
  ghost predicate CanonicalHead(us: Units, cs: seq<Component>, k: nat)
    requires AllComponents(us, cs) && cs != []
  {
    && k < |us.printed|
    && us.printed[k].name == cs[0].unit
    && us.table[cs[0].unit] == us.printed[k].value
    && cs[0].digits[0] != '0'
    && Sum(us, cs[1..]) < us.printed[k].value
    && forall i :: 0 <= i < k ==> Sum(us, cs) < us.printed[i].value
  }

  ghost predicate Canonical(us: Units, cs: seq<Component>)
    requires AllComponents(us, cs)
  {
    cs == [] || ((exists k :: CanonicalHead(us, cs, k)) && Canonical(us, cs[1..]))
  }

  ghost predicate CanonicalDuration(us: Units, s: string, negative: bool, cs: seq<Component>) {
    IsDuration(us, s, negative, cs) && cs != [] && Canonical(us, cs) && Sum(us, cs) <= MAX_INT64
  }

  /** Zero, or a sign and a canonical list that fits an int64. */
  ghost predicate CanonicalString(us: Units, s: string) {
    s == "0s" || exists negative, cs :: CanonicalDuration(us, s, negative, cs)
  }

  /** The greedy split is canonical. */
  lemma {:induction false} DecomposeCanonical(us: Units, n: nat, k: nat)
    requires Good(us) && k <= |us.printed| && (k == |us.printed| ==> n == 0)
    requires forall i :: 0 <= i < k ==> n < us.printed[i].value
    ensures var cs := Decompose(us, n, k); AllComponents(us, cs) && Canonical(us, cs)
    decreases |us.printed| - k
  {
    DecomposeSum(us, n, k);
    if n > 0 {
      var v := us.printed[k].value;
      if n < v {
        DecomposeCanonical(us, n, k + 1);
      } else {
        DecomposeStep(us, n, k);
        DecomposeSum(us, n % v, k + 1);
        DecomposeCanonical(us, n % v, k + 1);
        ItoaNumber(n / v);
        assert CanonicalHead(us, Decompose(us, n, k), k);
      }
    }
  }

  lemma ProductBounds(q: int, v: int)
    requires v >= 1
    ensures q >= 1 ==> q * v >= v
    ensures q <= -1 ==> q * v <= -v
  {
    if q >= 1 {
      assert (q - 1) * v >= 0;
    } else if q <= -1 {
      assert (q + 1) * v <= 0;
    }
  }

  lemma DivMod(n: int, q: int, v: int, r: int)
    requires v >= 1 && 0 <= r < v && n == q * v + r
    ensures n / v == q && n % v == r
  {
    var d := n / v - q;
    assert d * v + n % v == r by {
      assert n / v * v + n % v == n;
      assert (n / v - q) * v == n / v * v - q * v;
    }
    ProductBounds(d, v);
  }

  lemma CanonicalHeadSum(us: Units, cs: seq<Component>, k: nat)
    requires Good(us) && AllComponents(us, cs) && cs != [] && CanonicalHead(us, cs, k)
    ensures var q, v := Number(cs[0].digits), us.printed[k].value;
            && Itoa(q) == cs[0].digits
            && Sum(us, cs) >= v
            && Sum(us, cs) / v == q && Sum(us, cs) % v == Sum(us, cs[1..])
  {
    var q, v := Number(cs[0].digits), us.printed[k].value;
    NumberItoa(cs[0].digits);
    ProductBounds(q, v);
    DivMod(Sum(us, cs), q, v, Sum(us, cs[1..]));
  }

  /** What follows a canonical head starts with a shorter unit. */
  lemma NextHead(us: Units, cs: seq<Component>, k: nat, j: nat)
    requires Good(us) && AllComponents(us, cs) && |cs| > 1
    requires CanonicalHead(us, cs, k) && CanonicalHead(us, cs[1..], j)
    ensures k < j
  {
    CanonicalHeadSum(us, cs[1..], j);
  }

  lemma SplitHead(us: Units, cs: seq<Component>, k: nat)
    requires Good(us) && AllComponents(us, cs) && cs != []
    requires CanonicalHead(us, cs, k)
    requires Decompose(us, Sum(us, cs[1..]), k + 1) == cs[1..]
    ensures Decompose(us, Sum(us, cs), k) == cs
  {
    CanonicalHeadSum(us, cs, k);
    DecomposeStep(us, Sum(us, cs), k);
    assert cs == [cs[0]] + cs[1..];
  }

  lemma SkipUnit(us: Units, cs: seq<Component>, k: nat, i: nat)
    requires Good(us) && AllComponents(us, cs) && cs != []
    requires k < i && CanonicalHead(us, cs, i)
    ensures Decompose(us, Sum(us, cs), k) == Decompose(us, Sum(us, cs), k + 1)
  {
    CanonicalHeadSum(us, cs, i);
  }

  /** A canonical list is the greedy split of its sum. */
  lemma {:induction false} CanonicalIsDecompose(us: Units, cs: seq<Component>, k: nat, i: nat)
    requires Good(us) && k <= |us.printed|
    requires AllComponents(us, cs) && Canonical(us, cs)
    requires cs != [] ==> k <= i && CanonicalHead(us, cs, i)
    ensures Decompose(us, Sum(us, cs), k) == cs
    decreases |cs|, |us.printed| - k
  {
    if cs == [] {
    } else if k < i {
      SkipUnit(us, cs, k, i);
      CanonicalIsDecompose(us, cs, k + 1, i);
    } else {
      var rest := cs[1..];
      if rest == [] {
        CanonicalIsDecompose(us, rest, k + 1, i);
      } else {
        var j :| CanonicalHead(us, rest, j);
        NextHead(us, cs, k, j);
        CanonicalIsDecompose(us, rest, k + 1, j);
      }
      SplitHead(us, cs, k);
    }
  }

  /** Printing a canonical string's value gives the string back. */
  lemma PrintCanonical(us: Units, s: string, negative: bool, cs: seq<Component>)
    requires Good(us) && CanonicalDuration(us, s, negative, cs)
    ensures Parse(us, s) == Ok(Signed(negative, Sum(us, cs))) && Print(us, Signed(negative, Sum(us, cs))) == s
  {
    var k :| CanonicalHead(us, cs, k);
    CanonicalIsDecompose(us, cs, 0, k);
    CanonicalHeadSum(us, cs, k);
    PrintOfSum(us, negative, cs);
    ParseAccepts(us, s, negative, cs);
  }

  lemma PrintOfSum(us: Units, negative: bool, cs: seq<Component>)
    requires AllComponents(us, cs) && 0 < Sum(us, cs) <= MAX_INT64
    requires Decompose(us, Sum(us, cs), 0) == cs
    ensures Print(us, Signed(negative, Sum(us, cs))) == Sign(negative) + Render(cs)
    ensures Wrap(Signed(negative, Sum(us, cs))) == Signed(negative, Sum(us, cs))
  {
  }

  /** Printing undoes parsing on exactly the canonical strings. */
  lemma PrintParse(us: Units, s: string)
    requires Good(us)
    ensures (Parse(us, s).Ok? && Print(us, Parse(us, s).value) == s) <==> CanonicalString(us, s)
  {
    if s == "0s" {
      ZeroString(us);
    } else if negative, cs :| CanonicalDuration(us, s, negative, cs) {
      PrintCanonical(us, s, negative, cs);
    } else if Parse(us, s).Ok? && Print(us, Parse(us, s).value) == s {
      var d := Parse(us, s).value;
      ParsePrint(us, d);
      PrintIsDuration(us, d);
      DecomposeCanonical(us, Abs(d), 0);
      assert CanonicalDuration(us, s, d < 0, Decompose(us, Abs(d), 0));
    }
  }

  /** Both round trips, with the package's own units. */
  lemma RoundTrips(d: int, s: string)
    requires IsInt64(d)
    ensures Parse(UNITS, Print(UNITS, d)) == Ok(d) <==> d != MIN_INT64
    ensures (Parse(UNITS, s).Ok? && Print(UNITS, Parse(UNITS, s).value) == s) <==> CanonicalString(UNITS, s)
  {
    UnitsGood();
    ParsePrint(UNITS, d);
    PrintParse(UNITS, s);
  }

  /** It is not enough that each tail is smaller than the unit before it: 100 hours after
      a year are, and come back as days and hours. */
  lemma TailsAloneDoNotSuffice()
    ensures AllComponents(UNITS, YEAR_AND_HOURS) && Render(YEAR_AND_HOURS) == "1y100h"
    ensures Sum(UNITS, YEAR_AND_HOURS[1..]) < UNITS.table["y"]
    ensures !CanonicalString(UNITS, "1y100h")
  {
    UnitsGood();
    YearAndHours();
    var us, s, cs := UNITS, "1y100h", YEAR_AND_HOURS;
    assert IsDuration(us, s, false, cs);
    HoursNotCanonical();
    forall negative, cs' ensures !CanonicalDuration(us, s, negative, cs') {
      if IsDuration(us, s, negative, cs') {
        ReadingUnique(us, s, false, cs, negative, cs');
      }
    }
  }

  const YEAR_AND_HOURS: seq<Component> := [Component("1", "y"), Component("100", "h")]

  lemma YearAndHours()
    ensures AllComponents(UNITS, YEAR_AND_HOURS) && Render(YEAR_AND_HOURS) == "1y100h"
    ensures YEAR_AND_HOURS[1..] == [Component("100", "h")] && Sum(UNITS, YEAR_AND_HOURS[1..]) == 100 * HOUR
  {
    UnitsGood();
    var us, cs := UNITS, YEAR_AND_HOURS;
    assert cs[1..] == [Component("100", "h")] && cs[1..][1..] == [];
    assert Number("100") == 100 by { assert "100"[..2] == "10" && "10"[..1] == "1" && "1"[..0] == ""; }
  }

  lemma HoursNotCanonical()
    ensures !Canonical(UNITS, YEAR_AND_HOURS)
  {
    UnitsGood();
    YearAndHours();
    assert UNITS.printed[1].value == HOUR * 24;
    assert !Canonical(UNITS, YEAR_AND_HOURS[1..]);
  }

  // ---- no overflow on the way back -----------------------------------------

  /** While a printed duration is parsed no product and no partial sum leaves int64,
      and neither does a coefficient while its digits are read. */
  lemma PartialSumsFit(us: Units, cs: seq<Component>, i: nat, j: nat)
    requires Good(us) && AllComponents(us, cs) && Sum(us, cs) <= MAX_INT64
    requires i < |cs| && j <= |cs[i].digits|
    ensures Number(cs[i].digits[..j]) <= Number(cs[i].digits) <= Amount(us, cs[i])
    ensures Sum(us, cs[..i]) + Amount(us, cs[i]) <= Sum(us, cs) <= MAX_INT64
  {
    NumberPrefix(cs[i].digits, j);
    CoefficientFits(Number(cs[i].digits), us.table[cs[i].unit]);
    SumSplit(us, cs, i);
    assert cs[i..][0] == cs[i];
  }

  lemma CoefficientFits(q: nat, v: int)
    requires v >= 1
    ensures q <= q * v
  {
    assert q * (v - 1) >= 0;
  }

  lemma {:induction false} NumberPrefix(s: string, j: nat)
    requires AllDigits(s) && j <= |s|
    ensures Number(s[..j]) <= Number(s)
  {
    if j < |s| {
      NumberPrefix(s[..|s| - 1], j);
      assert s[..|s| - 1][..j] == s[..j];
    } else {
      assert s[..j] == s;
    }
  }

  lemma {:induction false} SumSplit(us: Units, cs: seq<Component>, i: nat)
    requires AllComponents(us, cs) && i <= |cs|
    ensures Sum(us, cs) == Sum(us, cs[..i]) + Sum(us, cs[i..])
  {
    if i == 0 {
      assert cs[..i] == [] && cs[i..] == cs;
    } else {
      SumSplit(us, cs[1..], i - 1);
      assert cs[1..][..i - 1] == cs[..i][1..];
      assert cs[1..][i - 1..] == cs[i..];
    }
  }

  // ---- the loops -----------------------------------------------------------

  function Prepend(cs: seq<Component>, r: Result<seq<Component>>): Result<seq<Component>> {
    if r.Err? then r else Ok(cs + r.value)
  }

  /** n *= 10; n += digit, on an int64. */
  lemma DigitStep(s: string, start: nat, i: nat, n: int)
    requires start <= i < |s| && AllDigits(s[start..i]) && IsDigit(s[i])
    requires n == Wrap(Number(s[start..i]))
    ensures AllDigits(s[start..i + 1])
    ensures Wrap(Wrap(n * 10) + Digit(s[i])) == Wrap(Number(s[start..i + 1]))
  {
    var t := s[start..i + 1];
    assert t[..|t| - 1] == s[start..i];
    WrapMul(Number(s[start..i]), 10);
    WrapAdd(Number(s[start..i]) * 10, Digit(s[i]));
  }

  /** d += time.Duration(n) * unit, on an int64. */
  lemma ComponentStep(us: Units, cs: seq<Component>, c: Component, d: int, n: int)
    requires AllComponents(us, cs) && IsComponent(us, c)
    requires d == Wrap(Sum(us, cs)) && n == Wrap(Number(c.digits))
    ensures Wrap(d + Wrap(n * us.table[c.unit])) == Wrap(Sum(us, cs + [c]))
  {
    SumSnoc(us, cs, c);
    WrapMul(Number(c.digits), us.table[c.unit]);
    WrapSum(Sum(us, cs), Amount(us, c));
  }

  lemma SumSnoc(us: Units, cs: seq<Component>, c: Component)
    requires AllComponents(us, cs) && IsComponent(us, c)
    ensures AllComponents(us, cs + [c]) && Sum(us, cs + [c]) == Sum(us, cs) + Amount(us, c)
  {
    SumSplit(us, cs + [c], |cs|);
    assert (cs + [c])[..|cs|] == cs && (cs + [c])[|cs|..] == [c];
    assert Sum(us, [c]) == Amount(us, c) by { assert [c][1..] == []; }
  }

  lemma WrapSum(a: int, b: int)
    ensures Wrap(Wrap(a) + Wrap(b)) == Wrap(a + b)
  {
    WrapAdd(a, Wrap(b));
    WrapAdd(a, b);
  }

  /** Consumes [0-9]+ from i on. */
  method ConsumeDigits(s: string, start: nat) returns (n: int, i: nat)
    requires start <= |s|
    ensures i == RunEnd(s, start, true) && AllDigits(s[start..i]) && n == Wrap(Number(s[start..i]))
  {
    n, i := 0, start;
    while i < |s| && IsDigit(s[i])
      invariant start <= i <= |s| && AllDigits(s[start..i]) && n == Wrap(Number(s[start..i]))
      invariant RunEnd(s, start, true) == RunEnd(s, i, true)
    {
      DigitStep(s, start, i, n);
      n := Wrap(n * 10);
      n := Wrap(n + Digit(s[i]));
      i := i + 1;
    }
  }

  /** Consumes [^0-9]+ from i on. */
  method ConsumeUnit(s: string, start: nat) returns (i: nat)
    requires start <= |s|
    ensures i == RunEnd(s, start, false)
  {
    i := start;
    while i < |s| && !IsDigit(s[i])
      invariant start <= i <= |s|
      invariant RunEnd(s, start, false) == RunEnd(s, i, false)
    {
      i := i + 1;
    }
  }

  /** Parses one component at i, which is not the end of s. */
  method ParseComponent(us: Units, s: string, i: nat) returns (r: Result<int>, unitText: string, j: nat, ghost c: Component)
    requires i < |s|
    ensures r.Ok? ==> i < j <= |s| && unitText in us.table && IsComponent(us, c) && c.unit == unitText
    ensures r.Ok? ==> r.value == Wrap(Number(c.digits))
    ensures r.Ok? ==> Components(us, s, i) == Prepend([c], Components(us, s, j))
    ensures r.Err? ==> Components(us, s, i) == Err(r.error)
  {
    j, unitText, c := i, "", Component("", "");
    if !IsDigit(s[i]) {
      return Err(NoValueSpecified(s)), unitText, j, c;
    }
    var n, unitStart := ConsumeDigits(s, i);
    if unitStart == |s| {
      return Err(NoUnitGiven(s)), unitText, j, c;
    }
    j := ConsumeUnit(s, unitStart);
    unitText := s[unitStart..j];
    if unitText !in us.table {
      return Err(InvalidUnit(s, unitText)), unitText, j, c;
    }
    c := Component(s[i..unitStart], unitText);
    r := Ok(n);
  }

  function Unsigned(us: Units, s: string): Result<int> {
    match Components(us, s, 0)
    case Err(e) => Err(e)
    case Ok(cs) => Ok(Wrap(Sum(us, cs)))
  }

  function Negated(r: Result<int>, negative: bool): Result<int> {
    if r.Ok? && negative then Ok(Wrap(-r.value)) else r
  }

  lemma ParseBySign(us: Units, text: string, negative: bool, body: string)
    requires text != [] && negative == (text[0] == '-')
    requires body == if negative then text[1..] else text
    ensures Parse(us, text) == Negated(Unsigned(us, body), negative)
  {
    var cs := Components(us, body, 0);
    if cs.Ok? {
      NegatedWrap(Wrap(Sum(us, cs.value)), Sum(us, cs.value));
    }
  }

  /** The loop over the components of an unsigned text. */
  /** The components cs up to i have been read, and d is their sum. */
  ghost predicate ReadUpTo(us: Units, s: string, i: nat, cs: seq<Component>, d: int) {
    && i <= |s| && AllComponents(us, cs) && d == Wrap(Sum(us, cs))
    && Components(us, s, 0) == Prepend(cs, Components(us, s, i))
  }

  lemma ReadNothing(us: Units, s: string)
    ensures ReadUpTo(us, s, 0, [], 0)
  {
    PrependNothing(Components(us, s, 0));
  }

  lemma ReadNext(us: Units, s: string, i: nat, cs: seq<Component>, d: int, j: nat, c: Component, n: int)
    requires ReadUpTo(us, s, i, cs, d) && i <= j <= |s| && IsComponent(us, c) && n == Wrap(Number(c.digits))
    requires Components(us, s, i) == Prepend([c], Components(us, s, j))
    ensures ReadUpTo(us, s, j, cs + [c], Wrap(d + Wrap(n * us.table[c.unit])))
  {
    ComponentStep(us, cs, c, d, n);
    PrependStep(cs, c, Components(us, s, j));
  }

  lemma ReadAll(us: Units, s: string, cs: seq<Component>, d: int)
    requires ReadUpTo(us, s, |s|, cs, d)
    ensures Unsigned(us, s) == Ok(d)
  {
    assert cs + [] == cs;
  }

  lemma ReadError(us: Units, s: string, i: nat, cs: seq<Component>, d: int, e: ParseError)
    requires ReadUpTo(us, s, i, cs, d) && Components(us, s, i) == Err(e)
    ensures Unsigned(us, s) == Err(e)
  {
  }

  method ParseUnsigned(us: Units, s: string) returns (r: Result<int>)
    ensures r == Unsigned(us, s)
  {
    var d, i := 0, 0;
    ghost var cs: seq<Component> := [];
    ReadNothing(us, s);
    while i < |s|
      invariant 0 <= i <= |s| && ReadUpTo(us, s, i, cs, d)
      decreases |s| - i
    {
      var n, unitText, next, c := ParseComponent(us, s, i);
      if n.Err? {
        ReadError(us, s, i, cs, d, n.error);
        return Err(n.error);
      }
      ReadNext(us, s, i, cs, d, next, c, n.value);
      d := Wrap(d + Wrap(n.value * us.table[unitText]));
      i := next;
      cs := cs + [c];
    }
    ReadAll(us, s, cs, d);
    return Ok(d);
  }

  method ParseExtendedDuration(us: Units, text: string) returns (r: Result<int>)
    ensures r == Parse(us, text)
  {
    if |text| == 0 {
      return Err(DurationEmpty);
    }
    var isNegative, s := false, text;
    if s[0] == '-' {
      isNegative := true;
      s := s[1..];
    }
    ParseBySign(us, text, isNegative, s);
    var d := ParseUnsigned(us, s);
    r := Negated(d, isNegative);
  }

  lemma NegatedWrap(d: int, n: int)
    requires d == Wrap(n)
    ensures Wrap(-d) == Wrap(-n)
  {
    WrapMul(n, -1);
  }

  lemma PrependNothing(r: Result<seq<Component>>)
    ensures Prepend([], r) == r
  {
    assert r.Ok? ==> [] + r.value == r.value;
  }

  lemma PrependStep(cs: seq<Component>, c: Component, r: Result<seq<Component>>)
    ensures Prepend(cs, Prepend([c], r)) == Prepend(cs + [c], r)
  {
    if r.Ok? {
      assert cs + ([c] + r.value) == cs + [c] + r.value;
    }
  }

  method ToExtendedString(us: Units, d: int) returns (b: string)
    requires IsInt64(d)
    ensures b == Print(us, d)
  {
    if d == 0 {
      return "0s";
    }
    b := "";
    var dUnixNanos := d;
    if dUnixNanos < 0 {
      dUnixNanos := Wrap(-dUnixNanos);
      b := b + "-";
    }
    ghost var all := Print(us, d);
    assert b + Render(Decompose(us, dUnixNanos, 0)) == all by {
      assert "" + "-" == "-";
    }
    var k := 0;
    while k < |us.printed|
      invariant 0 <= k <= |us.printed|
      invariant b + Render(Decompose(us, dUnixNanos, k)) == all
    {
      var u := us.printed[k];
      k := k + 1;
      if dUnixNanos < u.value {
        continue;
      }
      var quotient := dUnixNanos / u.value;
      PrintStep(us, dUnixNanos, k - 1, b);
      dUnixNanos := dUnixNanos - quotient * u.value;
      b := b + Itoa(quotient);
      b := b + u.name;
      if dUnixNanos == 0 {
        break;
      }
    }
    assert Render(Decompose(us, dUnixNanos, k)) == "";
  }

  lemma PrintStep(us: Units, n: int, k: nat, b: string)
    requires k < |us.printed| && n >= us.printed[k].value
    ensures var u := us.printed[k];
            && n / u.value >= 0
            && b + Itoa(n / u.value) + u.name + Render(Decompose(us, n - n / u.value * u.value, k + 1)) == b + Render(Decompose(us, n, k))
  {
    var u := us.printed[k];
    RenderStep(us, n, k);
    var rest := Render(Decompose(us, n % u.value, k + 1));
    assert b + (Itoa(n / u.value) + u.name + rest) == b + Itoa(n / u.value) + u.name + rest;
  }

  lemma RenderStep(us: Units, n: int, k: nat)
    requires k < |us.printed| && n >= us.printed[k].value
    ensures var u := us.printed[k];
            && n / u.value >= 0 && n - n / u.value * u.value == n % u.value
            && Render(Decompose(us, n, k)) == Itoa(n / u.value) + u.name + Render(Decompose(us, n % u.value, k + 1))
  {
    var u := us.printed[k];
    DivisionParts(n, u.value);
    var c, rest := Component(Itoa(n / u.value), u.name), Decompose(us, n % u.value, k + 1);
    assert Decompose(us, n, k) == [c] + rest && ([c] + rest)[1..] == rest;
  }

  /** The first unit of the table that divides n, if n is positive. */
  method MaxUnitOf(us: Units, n: int) returns (multiple: int, k: nat)
    requires Good(us)
    ensures k < |us.printed|
    ensures n <= 0 ==> multiple == 0 && k == |us.printed| - 1
    ensures n > 0 ==> multiple * us.printed[k].value == n
    ensures n > 0 ==> forall i :: 0 <= i < k ==> n % us.printed[i].value != 0
  {
    for i := 0 to |us.printed|
      invariant n > 0 ==> forall j :: 0 <= j < i ==> n % us.printed[j].value != 0
    {
      var value := us.printed[i].value;
      if n < value {
        if n > 0 {
          SmallRemainder(n, value);
        }
        continue;
      }
      var quotient := n / value;
      var remainder := n - quotient * value;
      DivisionParts(n, value);
      if remainder != 0 {
        continue;
      }
      return quotient, i;
    }
    if n > 0 {
      DivMod(n, n, 1, 0);
      assert false;
    }
    return 0, |us.printed| - 1;
  }

  /** The largest unit that divides d, and how often; k is the unit's place in the table.
      Zero and the minimum, whose negation overflows, are answered with zero nanoseconds. */
  method MaxUnitForDuration(us: Units, d: int) returns (multiple: int, k: nat)
    requires Good(us) && IsInt64(d)
    ensures k < |us.printed|
    ensures d == 0 || d == MIN_INT64 ==> multiple == 0 && k == |us.printed| - 1
    ensures d != MIN_INT64 ==> multiple * us.printed[k].value == d
    ensures d != 0 && d != MIN_INT64 ==> forall i :: 0 <= i < k ==> d % us.printed[i].value != 0
  {
    if d < 0 {
      var n := Wrap(-d);
      assert n == if d == MIN_INT64 then d else -d;
      multiple, k := MaxUnitOf(us, n);
      if n > 0 {
        NegatedRemainders(us, d, k);
        assert -multiple * us.printed[k].value == -(multiple * us.printed[k].value);
      }
      multiple := -multiple;
    } else {
      multiple, k := MaxUnitOf(us, d);
    }
  }

  lemma SmallRemainder(n: int, v: int)
    requires 0 < n < v
    ensures n % v == n
  {
    DivMod(n, 0, v, n);
  }

  lemma NegatedRemainders(us: Units, d: int, k: nat)
    requires k < |us.printed|
    requires forall i :: 0 <= i < k ==> (-d) % us.printed[i].value != 0
    ensures forall i :: 0 <= i < k ==> d % us.printed[i].value != 0
  {
    forall i | 0 <= i < k ensures d % us.printed[i].value != 0 {
      var v := us.printed[i].value;
      if d % v == 0 {
        assert d / v * v == d;
        assert -d == (-(d / v)) * v;
        DivMod(-d, -(d / v), v, 0);
        assert false;
      }
    }
  }
}
