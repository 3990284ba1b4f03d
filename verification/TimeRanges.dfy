/**
 Sets of points in time (time/range.go, time/ranges.go, time/range_iter.go): half-open
 ranges, and a sorted list of disjoint ranges that is edited in place.  Touching ranges
 are not joined.  A time is an integer; only its order matters here.
 */
module TimeRanges {
  import opened Common

  // ---- one range -----------------------------------------------------------

  /** [start, end) */
  datatype Range = Range(start: int, end: int) {

    predicate IsEmpty() {
      start == end
    }

    predicate Before(other: Range) {
      end <= other.start
    }

    predicate Contains(other: Range) {
      start <= other.start && end >= other.end
    }

    predicate Overlaps(other: Range) {
      end > other.start && start < other.end
    }

    function Intersect(other: Range): Option<Range> {
      if !Overlaps(other) then None
      else Some(Range(if start < other.start then other.start else start, if end > other.end then other.end else end))
    }

    function Merge(other: Range): Range {
      Range(if start < other.start then start else other.start, if end > other.end then end else other.end)
    }

    /** A nil result is the empty sequence. */
    function Subtract(other: Range): seq<Range> {
      var left, right := Range(start, other.start), Range(other.end, end);
      if !Overlaps(other) then [this]
      else if other.Contains(this) then []
      else if Contains(other) then
        (if left.IsEmpty() then [] else [left]) + (if right.IsEmpty() then [] else [right])
      else if start <= other.start then
        if left.IsEmpty() then [] else [left]
      else
        if right.IsEmpty() then [] else [right]
    }

    /** The range has been built the right way round; IsEmpty tests equality only. */
    predicate Ordered() {
      start <= end
    }

    predicate Has(t: int) {
      start <= t < end
    }
  }

  /** Instant t lies before e. */
  ghost predicate Earlier(t: int, e: int) {
    t < e
  }

  /** The order of ranges, and what Merge and Intersect bound, by the instants before a start
      or an end; empty ranges included. */
  lemma RangeOrder(r: Range, o: Range)
    ensures r.Before(o) <==> forall t :: Earlier(t, r.end) ==> Earlier(t, o.start)
    ensures r.Overlaps(o) <==> !r.Before(o) && !o.Before(r)
    ensures r.Contains(o) <==>
              (forall t :: Earlier(t, r.start) ==> Earlier(t, o.start)) && (forall t :: Earlier(t, o.end) ==> Earlier(t, r.end))
    ensures forall t :: Earlier(t, r.Merge(o).start) <==> Earlier(t, r.start) && Earlier(t, o.start)
    ensures forall t :: Earlier(t, r.Merge(o).end) <==> Earlier(t, r.end) || Earlier(t, o.end)
    ensures r.Intersect(o).Some? <==> r.Overlaps(o)
    ensures r.Intersect(o).Some? ==>
              && (forall t :: Earlier(t, r.Intersect(o).value.start) <==> Earlier(t, r.start) || Earlier(t, o.start))
              && (forall t :: Earlier(t, r.Intersect(o).value.end) <==> Earlier(t, r.end) && Earlier(t, o.end))
  {
    EarlierIff(r.end, o.start);
    EarlierIff(r.start, o.start);
    EarlierIff(o.end, r.end);
  }

  lemma EarlierIff(a: int, b: int)
    ensures (forall t :: Earlier(t, a) ==> Earlier(t, b)) <==> a <= b
  {
    if a > b {
      assert Earlier(b, a) && !Earlier(b, b);
    }
  }

  ghost predicate SharePoint(r: Range, o: Range) {
    exists t :: r.Has(t) && o.Has(t)
  }

  lemma OverlapsMeansCommonPoint(r: Range, o: Range)
    requires r.start < r.end && o.start < o.end
    ensures r.Overlaps(o) <==> SharePoint(r, o)
  {
    if r.Overlaps(o) {
      var t := if r.start < o.start then o.start else r.start;
      assert r.Has(t) && o.Has(t);
    }
  }

  /** Intersect is the common points, and is there exactly when there are any. */
  lemma IntersectPoints(r: Range, o: Range, t: int)
    requires r.start < r.end && o.start < o.end
    ensures r.Intersect(o).Some? <==> SharePoint(r, o)
    ensures r.Intersect(o).Some? ==> (r.Intersect(o).value.Has(t) <==> r.Has(t) && o.Has(t))
  {
    OverlapsMeansCommonPoint(r, o);
  }

  /** t is a point of r that is not in o. */
  ghost predicate Remains(r: Range, o: Range, t: int) {
    r.Has(t) && !o.Has(t)
  }

  /** A stretch of remaining points that cannot be extended on either side. */
  ghost predicate Piece(y: Range, r: Range, o: Range) {
    && y.start < y.end && (forall t :: y.Has(t) ==> Remains(r, o, t))
    && !Remains(r, o, y.start - 1) && !Remains(r, o, y.end)
  }

  /** Subtract leaves the maximal pieces, one or two in order, with exactly the remaining
      points; nothing when all of r is removed, and r itself when they share no point. */
  lemma SubtractPoints(r: Range, o: Range)
    requires r.start < r.end && o.start < o.end
    ensures var res := r.Subtract(o);
            && Sorted(res) && |res| <= 2
            && (forall x :: x in res ==> r.start <= x.start && x.end <= r.end && Piece(x, r, o))
            && (forall t :: Covers(res, t) <==> Remains(r, o, t))
            && (res == [] <==> o.Contains(r))
            && (!SharePoint(r, o) ==> res == [r])
  {
    var res := r.Subtract(o);
    SubtractShape(r, o);
    forall t ensures Covers(res, t) <==> Remains(r, o, t) {
      SubtractPoint(r, o, t);
    }
    forall x | x in res ensures Piece(x, r, o) {
      SubtractPiece(r, o, x);
    }
  }

  lemma SubtractShape(r: Range, o: Range)
    requires r.start < r.end && o.start < o.end
    ensures var res := r.Subtract(o);
            && Sorted(res) && |res| <= 2
            && (forall x :: x in res ==> r.start <= x.start && x.end <= r.end)
            && (res == [] <==> o.Contains(r))
            && (!SharePoint(r, o) ==> res == [r])
  {
    OverlapsMeansCommonPoint(r, o);
  }

  lemma SubtractPoint(r: Range, o: Range, t: int)
    requires r.start < r.end && o.start < o.end
    ensures Covers(r.Subtract(o), t) <==> Remains(r, o, t)
  {
    var res := r.Subtract(o);
    if Remains(r, o, t) {
      assert res != [];
      assert res[0].Has(t) || (|res| == 2 && res[1].Has(t));
    }
  }

  lemma SubtractPiece(r: Range, o: Range, x: Range)
    requires r.start < r.end && o.start < o.end && x in r.Subtract(o)
    ensures Piece(x, r, o)
  {
  }

  /** An empty range strictly inside another one cuts it in two. */
  lemma SubtractEmpty(r: Range, o: Range)
    requires o.IsEmpty()
    ensures r.start < o.start < r.end ==> r.Subtract(o) == [Range(r.start, o.start), Range(o.start, r.end)]
    ensures !(r.start < o.start < r.end) ==> r.Subtract(o) == [r]
  {
  }

  // ---- sorted lists of ranges ----------------------------------------------

  /** Non-empty ranges, each ending before the next begins. */
  ghost predicate Sorted(s: seq<Range>) {
    && (forall i :: 0 <= i < |s| ==> s[i].start < s[i].end)
    && (forall i, j :: 0 <= i < j < |s| ==> s[i].end <= s[j].start)
  }

  /** t lies in one of the ranges. */
  ghost predicate Covers(s: seq<Range>, t: int) {
    exists i :: 0 <= i < |s| && s[i].Has(t)
  }

  lemma CoversConcat(a: seq<Range>, b: seq<Range>, t: int)
    ensures Covers(a + b, t) <==> Covers(a, t) || Covers(b, t)
  {
    if i :| 0 <= i < |a| && a[i].Has(t) {
      assert (a + b)[i].Has(t);
    }
    if i :| 0 <= i < |b| && b[i].Has(t) {
      assert (a + b)[|a| + i].Has(t);
    }
    if i :| 0 <= i < |a + b| && (a + b)[i].Has(t) {
      assert if i < |a| then a[i].Has(t) else b[i - |a|].Has(t);
    }
  }

  lemma CoversHead(s: seq<Range>, t: int)
    requires s != []
    ensures Covers(s, t) <==> s[0].Has(t) || Covers(s[1..], t)
  {
    assert s == [s[0]] + s[1..];
    CoversConcat([s[0]], s[1..], t);
    assert [s[0]][0] == s[0];
  }

  ghost predicate StartsFrom(s: seq<Range>, lo: int) {
    forall i :: 0 <= i < |s| ==> lo <= s[i].start
  }

  ghost predicate EndsBy(s: seq<Range>, hi: int) {
    forall i :: 0 <= i < |s| ==> s[i].end <= hi
  }

  lemma SortedConcat(a: seq<Range>, b: seq<Range>, mid: int)
    requires Sorted(a) && Sorted(b) && EndsBy(a, mid) && StartsFrom(b, mid)
    ensures Sorted(a + b)
  {
    var s := a + b;
    forall i, j | 0 <= i < j < |s| ensures s[i].end <= s[j].start {
      if i < |a| <= j {
        assert s[i].end <= mid <= s[j].start;
      }
    }
  }

  lemma SortedTail(s: seq<Range>)
    requires Sorted(s) && s != []
    ensures Sorted(s[1..]) && StartsFrom(s[1..], s[0].end)
  {
  }

  // ---- adding --------------------------------------------------------------

  /** r, merged with every range at the front of s that overlaps it, before the rest. */
  function Absorb(s: seq<Range>, r: Range): seq<Range> {
    if s == [] || !s[0].Overlaps(r) then [r] + s else Absorb(s[1..], r.Merge(s[0]))
  }

  function Insert(s: seq<Range>, r: Range): seq<Range> {
    if s != [] && s[0].Before(r) then [s[0]] + Insert(s[1..], r) else Absorb(s, r)
  }

  function AddTo(s: seq<Range>, r: Range): seq<Range> {
    if r.IsEmpty() then s else Insert(s, r)
  }

  lemma {:induction false} AbsorbCorrect(s: seq<Range>, r: Range, lo: int)
    requires Sorted(s) && r.start < r.end
    requires lo <= r.start && StartsFrom(s, lo)
    requires s != [] ==> !s[0].Before(r)
    ensures Sorted(Absorb(s, r)) && StartsFrom(Absorb(s, r), lo)
    ensures forall t :: Covers(Absorb(s, r), t) <==> Covers(s, t) || r.Has(t)
  {
    if s == [] || !s[0].Overlaps(r) {
      SortedConcat([r], s, r.end);
      forall t ensures Covers([r] + s, t) <==> Covers(s, t) || r.Has(t) {
        CoversConcat([r], s, t);
        assert [r][0] == r;
      }
    } else {
      SortedTail(s);
      AbsorbCorrect(s[1..], r.Merge(s[0]), lo);
      forall t ensures Covers(Absorb(s, r), t) <==> Covers(s, t) || r.Has(t) {
        CoversHead(s, t);
        assert r.Merge(s[0]).Has(t) <==> r.Has(t) || s[0].Has(t);
      }
    }
  }

  lemma {:induction false} InsertCorrect(s: seq<Range>, r: Range, lo: int)
    requires Sorted(s) && r.start < r.end
    requires lo <= r.start && StartsFrom(s, lo)
    ensures Sorted(Insert(s, r)) && StartsFrom(Insert(s, r), lo)
    ensures forall t :: Covers(Insert(s, r), t) <==> Covers(s, t) || r.Has(t)
  {
    if s != [] && s[0].Before(r) {
      SortedTail(s);
      InsertCorrect(s[1..], r, s[0].end);
      var rest := Insert(s[1..], r);
      SortedConcat([s[0]], rest, s[0].end);
      forall t ensures Covers(Insert(s, r), t) <==> Covers(s, t) || r.Has(t) {
        CoversHead(s, t);
        CoversHead([s[0]] + rest, t);
        assert ([s[0]] + rest)[1..] == rest;
      }
    } else {
      AbsorbCorrect(s, r, lo);
    }
  }

  /** Adding a range is union, and keeps the list sorted, disjoint and without empty ranges. */
  lemma AddIsUnion(s: seq<Range>, r: Range)
    requires Sorted(s) && r.Ordered()
    ensures Sorted(AddTo(s, r))
    ensures forall t :: Covers(AddTo(s, r), t) <==> Covers(s, t) || r.Has(t)
  {
    if !r.IsEmpty() {
      var lo := if s != [] && s[0].start < r.start then s[0].start else r.start;
      assert StartsFrom(s, lo) by {
        assert s != [] ==> forall i :: 0 < i < |s| ==> s[0].end <= s[i].start;
      }
      InsertCorrect(s, r, lo);
    }
  }

  /** The ranges of s without a point in r. */
  ghost function Others(s: seq<Range>, r: Range): seq<Range> {
    if s == [] then [] else (if SharePoint(s[0], r) then [] else [s[0]]) + Others(s[1..], r)
  }

  /** m reaches from the least start to the greatest end of r0 and the ranges of s that share a
      point with r. */
  ghost predicate Hull(m: Range, r0: Range, s: seq<Range>, r: Range) {
    && m.start <= r0.start && r0.end <= m.end
    && (forall x :: x in s && SharePoint(x, r) ==> m.start <= x.start && x.end <= m.end)
    && (m.start == r0.start || exists x :: x in s && SharePoint(x, r) && x.start == m.start)
    && (m.end == r0.end || exists x :: x in s && SharePoint(x, r) && x.end == m.end)
  }

  lemma {:induction false} OthersAll(s: seq<Range>, r: Range)
    requires forall x :: x in s ==> !SharePoint(x, r)
    ensures Others(s, r) == s
  {
    if s != [] {
      OthersAll(s[1..], r);
      assert s == [s[0]] + s[1..];
    }
  }

  lemma HullCons(m: Range, x: Range, r0: Range, s: seq<Range>, r: Range)
    requires SharePoint(x, r) && Hull(m, r0.Merge(x), s, r)
    ensures Hull(m, r0, [x] + s, r)
  {
    assert x in [x] + s && forall y :: y in s ==> y in [x] + s;
  }

  /** What has been merged so far, r0, ends where r does or before the rest begins. */
  lemma {:induction false} AbsorbJoins(s: seq<Range>, r0: Range, r: Range) returns (m: Range)
    requires Sorted(s) && r.start < r.end && r0.start <= r.start && r.end <= r0.end
    requires forall i :: 0 <= i < |s| ==> r.start < s[i].end
    requires r0.end == r.end || (s != [] ==> r0.end <= s[0].start)
    ensures Absorb(s, r0) == [m] + Others(s, r) && Hull(m, r0, s, r)
  {
    if s == [] || !s[0].Overlaps(r0) {
      m := r0;
      LaterShareNothing(s, r);
    } else {
      FirstShares(s, r0, r);
      m := AbsorbJoins(s[1..], r0.Merge(s[0]), r);
      HullCons(m, s[0], r0, s[1..], r);
      assert s == [s[0]] + s[1..];
    }
  }

  lemma FirstShares(s: seq<Range>, r0: Range, r: Range)
    requires Sorted(s) && s != [] && s[0].Overlaps(r0) && r.start < r.end && r.start < s[0].end && r.end <= r0.end
    requires r0.end == r.end || r0.end <= s[0].start
    ensures SharePoint(s[0], r) && Others(s, r) == Others(s[1..], r)
    ensures var end := r0.Merge(s[0]).end; end == r.end || (s[1..] != [] ==> end <= s[1..][0].start)
  {
    OverlapsMeansCommonPoint(s[0], r);
    assert [] + Others(s[1..], r) == Others(s[1..], r);
  }

  lemma LaterShareNothing(s: seq<Range>, r: Range)
    requires Sorted(s) && (s != [] ==> r.end <= s[0].start)
    ensures Others(s, r) == s && forall x :: x in s ==> !SharePoint(x, r)
  {
    forall x | x in s ensures !SharePoint(x, r) {
      var i :| 0 <= i < |s| && s[i] == x;
      assert r.end <= s[0].start <= s[i].start;
    }
    OthersAll(s, r);
  }

  lemma {:induction false} InsertJoins(s: seq<Range>, r: Range) returns (i: nat, m: Range)
    requires Sorted(s) && r.start < r.end
    ensures i < |Insert(s, r)| && Insert(s, r)[i] == m && Hull(m, r, s, r)
    ensures Insert(s, r)[..i] + Insert(s, r)[i + 1..] == Others(s, r)
  {
    if s != [] && s[0].Before(r) {
      var j;
      j, m := InsertJoins(s[1..], r);
      i := j + 1;
      OverlapsMeansCommonPoint(s[0], r);
      HullApart(m, s[0], r, s[1..], r);
      assert s == [s[0]] + s[1..];
      OneOut(s[0], Insert(s[1..], r), j);
    } else {
      forall k | 0 <= k < |s| ensures r.start < s[k].end {
        assert k > 0 ==> s[0].end <= s[k].start;
      }
      m := AbsorbJoins(s, r, r);
      i := 0;
      assert ([m] + Others(s, r))[1..] == Others(s, r);
    }
  }

  lemma OneOut(x: Range, rest: seq<Range>, j: nat)
    requires j < |rest|
    ensures ([x] + rest)[..j + 1] + ([x] + rest)[j + 2..] == [x] + (rest[..j] + rest[j + 1..])
  {
    assert ([x] + rest)[..j + 1] == [x] + rest[..j] && ([x] + rest)[j + 2..] == rest[j + 1..];
  }

  lemma HullApart(m: Range, x: Range, r0: Range, s: seq<Range>, r: Range)
    requires !SharePoint(x, r) && Hull(m, r0, s, r)
    ensures Hull(m, r0, [x] + s, r)
  {
    assert forall y :: y in s ==> y in [x] + s;
  }

  /** Adding a range leaves every range alone that shares no point with it, touching or not,
      and puts one range in the place of all others: from their least start, and its own, to
      the greatest end. */
  lemma AddJoins(s: seq<Range>, r: Range) returns (i: nat, m: Range)
    requires Sorted(s) && r.start < r.end
    ensures i < |AddTo(s, r)| && AddTo(s, r)[i] == m && Hull(m, r, s, r)
    ensures AddTo(s, r)[..i] + AddTo(s, r)[i + 1..] == Others(s, r)
  {
    i, m := InsertJoins(s, r);
  }

  // ---- removing ------------------------------------------------------------

  /** r subtracted from every range at the front of s that overlaps it. */
  function Carve(s: seq<Range>, r: Range): seq<Range> {
    if s == [] || !s[0].Overlaps(r) then s else s[0].Subtract(r) + Carve(s[1..], r)
  }

  function RemoveFrom(s: seq<Range>, r: Range): seq<Range> {
    if r.IsEmpty() then s else Cut(s, r)
  }

  function Cut(s: seq<Range>, r: Range): seq<Range> {
    if s != [] && s[0].Before(r) then [s[0]] + Cut(s[1..], r) else Carve(s, r)
  }

  lemma {:induction false} CarveCorrect(s: seq<Range>, r: Range, lo: int)
    requires Sorted(s) && StartsFrom(s, lo) && r.start < r.end
    requires s != [] ==> !s[0].Before(r)
    ensures Sorted(Carve(s, r)) && StartsFrom(Carve(s, r), lo)
    ensures forall t :: Covers(Carve(s, r), t) <==> Covers(s, t) && !r.Has(t)
  {
    if s == [] {
    } else if !s[0].Overlaps(r) {
      forall t | Covers(s, t) ensures !r.Has(t) {
        var i :| 0 <= i < |s| && s[i].Has(t);
        assert r.end <= s[0].start <= s[i].start;
      }
    } else {
      SortedTail(s);
      CarveCorrect(s[1..], r, s[0].end);
      SubtractPoints(s[0], r);
      var first, rest := s[0].Subtract(r), Carve(s[1..], r);
      SortedConcat(first, rest, s[0].end);
      assert StartsFrom(first + rest, lo);
      forall t ensures Covers(first + rest, t) <==> Covers(s, t) && !r.Has(t) {
        CoversConcat(first, rest, t);
        CoversHead(s, t);
      }
    }
  }

  lemma {:induction false} CutCorrect(s: seq<Range>, r: Range, lo: int)
    requires Sorted(s) && StartsFrom(s, lo) && r.start < r.end
    ensures Sorted(Cut(s, r)) && StartsFrom(Cut(s, r), lo)
    ensures forall t :: Covers(Cut(s, r), t) <==> Covers(s, t) && !r.Has(t)
  {
    if s != [] && s[0].Before(r) {
      SortedTail(s);
      CutCorrect(s[1..], r, s[0].end);
      var rest := Cut(s[1..], r);
      SortedConcat([s[0]], rest, s[0].end);
      forall t ensures Covers(Cut(s, r), t) <==> Covers(s, t) && !r.Has(t) {
        CoversHead(s, t);
        CoversHead([s[0]] + rest, t);
        assert ([s[0]] + rest)[1..] == rest;
      }
    } else {
      CarveCorrect(s, r, lo);
    }
  }

  /** Removing a range is difference, and keeps the list sorted, disjoint and without empty ranges. */
  lemma RemoveIsDifference(s: seq<Range>, r: Range)
    requires Sorted(s) && r.Ordered()
    ensures Sorted(RemoveFrom(s, r))
    ensures forall t :: Covers(RemoveFrom(s, r), t) <==> Covers(s, t) && !r.Has(t)
  {
    if !r.IsEmpty() {
      var lo := if s != [] then s[0].start else 0;
      assert StartsFrom(s, lo) by {
        assert s != [] ==> forall i :: 0 < i < |s| ==> s[0].end <= s[i].start;
      }
      CutCorrect(s, r, lo);
    }
  }

  /** r subtracted from each range. */
  ghost function SubtractEach(s: seq<Range>, r: Range): seq<Range> {
    if s == [] then [] else s[0].Subtract(r) + SubtractEach(s[1..], r)
  }

  lemma {:induction false} SubtractNothing(s: seq<Range>, r: Range)
    requires forall x :: x in s ==> !x.Overlaps(r)
    ensures SubtractEach(s, r) == s
  {
    if s != [] {
      SubtractNothing(s[1..], r);
      assert s == [s[0]] + s[1..];
    }
  }

  lemma {:induction false} CarveIsEach(s: seq<Range>, r: Range)
    requires Sorted(s) && r.start < r.end
    requires s != [] ==> !s[0].Before(r)
    ensures Carve(s, r) == SubtractEach(s, r)
  {
    if s == [] || !s[0].Overlaps(r) {
      forall x | x in s ensures !x.Overlaps(r) {
        var i :| 0 <= i < |s| && s[i] == x;
        assert r.end <= s[0].start <= s[i].start;
      }
      SubtractNothing(s, r);
    } else {
      CarveIsEach(s[1..], r);
    }
  }

  /** Removing is subtracting from every range. */
  lemma {:induction false} CutIsEach(s: seq<Range>, r: Range)
    requires Sorted(s) && r.start < r.end
    ensures Cut(s, r) == SubtractEach(s, r)
  {
    if s != [] && s[0].Before(r) {
      CutIsEach(s[1..], r);
    } else {
      CarveIsEach(s, r);
    }
  }

  /** y is a piece of one of the ranges. */
  ghost predicate PieceOfSome(y: Range, s: seq<Range>, r: Range) {
    exists x :: x in s && Piece(y, x, r)
  }

  /** The point t that remains of x is in a piece of it. */
  ghost predicate InPiece(res: seq<Range>, x: Range, r: Range, t: int) {
    exists y :: y in res && Piece(y, x, r) && y.Has(t)
  }

  /** What is left of the ranges of s are exactly their pieces. */
  ghost predicate PiecesOf(res: seq<Range>, s: seq<Range>, r: Range) {
    && (forall y :: y in res ==> PieceOfSome(y, s, r))
    && (forall x, t :: x in s && Remains(x, r, t) ==> InPiece(res, x, r, t))
    && (forall x :: x in s && !SharePoint(x, r) ==> x in res)
  }

  lemma PiecesOfOne(x: Range, r: Range)
    requires x.start < x.end && r.start < r.end
    ensures PiecesOf(x.Subtract(r), [x], r)
  {
    var res := x.Subtract(r);
    SubtractPoints(x, r);
    assert x in [x];
    forall t | Remains(x, r, t) ensures InPiece(res, x, r, t) {
      assert Covers(res, t);
      var i :| 0 <= i < |res| && res[i].Has(t);
      assert res[i] in res;
    }
  }

  lemma MorePieces(y: Range, s1: seq<Range>, s2: seq<Range>, r: Range)
    requires PieceOfSome(y, s1, r) || PieceOfSome(y, s2, r)
    ensures PieceOfSome(y, s1 + s2, r)
  {
    var x :| (x in s1 || x in s2) && Piece(y, x, r);
    assert x in s1 + s2;
  }

  lemma MoreIn(res1: seq<Range>, res2: seq<Range>, x: Range, r: Range, t: int)
    requires InPiece(res1, x, r, t) || InPiece(res2, x, r, t)
    ensures InPiece(res1 + res2, x, r, t)
  {
    var y :| (y in res1 || y in res2) && Piece(y, x, r) && y.Has(t);
    assert y in res1 + res2;
  }

  lemma PiecesOfBoth(res1: seq<Range>, s1: seq<Range>, res2: seq<Range>, s2: seq<Range>, r: Range)
    requires PiecesOf(res1, s1, r) && PiecesOf(res2, s2, r)
    ensures PiecesOf(res1 + res2, s1 + s2, r)
  {
    forall y | y in res1 + res2 ensures PieceOfSome(y, s1 + s2, r) {
      MorePieces(y, s1, s2, r);
    }
    forall x, t | x in s1 + s2 && Remains(x, r, t) ensures InPiece(res1 + res2, x, r, t) {
      MoreIn(res1, res2, x, r, t);
    }
  }

  lemma {:induction false} EachLeavesPieces(s: seq<Range>, r: Range)
    requires Sorted(s) && r.start < r.end
    ensures PiecesOf(SubtractEach(s, r), s, r)
  {
    if s != [] {
      EachLeavesPieces(s[1..], r);
      PiecesOfOne(s[0], r);
      PiecesOfBoth(s[0].Subtract(r), [s[0]], SubtractEach(s[1..], r), s[1..], r);
      assert s == [s[0]] + s[1..];
    }
  }

  /** Removing a range leaves, of every range, its maximal pieces: each range that is left is
      one, every remaining point is in one of its own range, and a range that shares no point
      stays as it is. */
  lemma RemoveLeavesPieces(s: seq<Range>, r: Range)
    requires Sorted(s) && r.start < r.end
    ensures PiecesOf(RemoveFrom(s, r), s, r)
  {
    CutIsEach(s, r);
    EachLeavesPieces(s, r);
  }

  /** An empty range adds and removes nothing. */
  lemma EmptyChangesNothing(s: seq<Range>, r: Range)
    requires r.start == r.end
    ensures AddTo(s, r) == s && RemoveFrom(s, r) == s
  {
  }

  // ---- whole collections ---------------------------------------------------

  function AddAll(s: seq<Range>, rs: seq<Range>): seq<Range> {
    if rs == [] then s else AddTo(AddAll(s, rs[..|rs| - 1]), rs[|rs| - 1])
  }

  function RemoveAll(s: seq<Range>, rs: seq<Range>): seq<Range> {
    if rs == [] then s else RemoveFrom(RemoveAll(s, rs[..|rs| - 1]), rs[|rs| - 1])
  }

  ghost predicate AllOrdered(rs: seq<Range>) {
    forall i :: 0 <= i < |rs| ==> rs[i].Ordered()
  }

  lemma CoversLast(rs: seq<Range>, t: int)
    requires rs != []
    ensures Covers(rs, t) <==> Covers(rs[..|rs| - 1], t) || rs[|rs| - 1].Has(t)
  {
    var front, last := rs[..|rs| - 1], rs[|rs| - 1];
    assert rs == front + [last];
    CoversConcat(front, [last], t);
    assert [last][0] == last;
  }

  /** Adding ranges one after the other is the union of all of them. */
  lemma {:induction false} AddAllIsUnion(s: seq<Range>, rs: seq<Range>)
    requires Sorted(s) && AllOrdered(rs)
    ensures Sorted(AddAll(s, rs))
    ensures forall t :: Covers(AddAll(s, rs), t) <==> Covers(s, t) || Covers(rs, t)
  {
    if rs != [] {
      var front, last := rs[..|rs| - 1], rs[|rs| - 1];
      AddAllIsUnion(s, front);
      AddIsUnion(AddAll(s, front), last);
      forall t ensures Covers(AddAll(s, rs), t) <==> Covers(s, t) || Covers(rs, t) {
        CoversLast(rs, t);
      }
    }
  }

  /** Removing ranges one after the other is the difference with all of them. */
  lemma {:induction false} RemoveAllIsDifference(s: seq<Range>, rs: seq<Range>)
    requires Sorted(s) && AllOrdered(rs)
    ensures Sorted(RemoveAll(s, rs))
    ensures forall t :: Covers(RemoveAll(s, rs), t) <==> Covers(s, t) && !Covers(rs, t)
  {
    if rs != [] {
      var front, last := rs[..|rs| - 1], rs[|rs| - 1];
      RemoveAllIsDifference(s, front);
      RemoveIsDifference(RemoveAll(s, front), last);
      forall t ensures Covers(RemoveAll(s, rs), t) <==> Covers(s, t) && !Covers(rs, t) {
        CoversLast(rs, t);
      }
    }
  }

  /** The order in which ranges are given does not matter for the points they cover. */
  lemma NewRangesInAnyOrder(rs: seq<Range>, rs': seq<Range>, t: int)
    requires AllOrdered(rs) && multiset(rs) == multiset(rs')
    ensures Covers(AddAll([], rs), t) <==> Covers(AddAll([], rs'), t)
  {
    assert forall x :: x in rs <==> x in multiset(rs);
    assert forall x :: x in rs' <==> x in multiset(rs');
    assert forall i :: 0 <= i < |rs'| ==> rs'[i] in rs;
    assert AllOrdered(rs');
    AddAllIsUnion([], rs);
    AddAllIsUnion([], rs');
    SameElementsCover(rs, rs', t);
    SameElementsCover(rs', rs, t);
  }

  lemma SameElementsCover(a: seq<Range>, b: seq<Range>, t: int)
    requires forall x :: x in a ==> x in b
    ensures Covers(a, t) ==> Covers(b, t)
  {
    if Covers(a, t) {
      var i :| 0 <= i < |a| && a[i].Has(t);
      assert a[i] in b;
      var j :| 0 <= j < |b| && b[j] == a[i];
    }
  }

  /** A sorted list without points is the empty list. */
  lemma NoPointsMeansEmpty(s: seq<Range>)
    requires Sorted(s)
    ensures s == [] <==> forall t :: !Covers(s, t)
  {
    if s != [] {
      assert s[0].Has(s[0].start);
      assert Covers(s, s[0].start);
    }
  }

  /** Nothing is left of a after removing b exactly when b covers all of a. */
  lemma RemoveAllEmptyMeansSubset(a: seq<Range>, b: seq<Range>)
    requires Sorted(a) && Sorted(b)
    ensures RemoveAll(a, b) == [] <==> forall t :: Covers(a, t) ==> Covers(b, t)
  {
    RemoveAllIsDifference(a, b);
    NoPointsMeansEmpty(RemoveAll(a, b));
  }

  /** The index of the first range that is not before r, or the length. */
  function FirstNotBefore(s: seq<Range>, r: Range): (e: nat)
    ensures e <= |s|
    ensures forall i :: 0 <= i < e ==> s[i].Before(r)
    ensures e < |s| ==> !s[e].Before(r)
  {
    if s != [] && s[0].Before(r) then 1 + FirstNotBefore(s[1..], r) else 0
  }

  /** Looking at the first range that is not before r decides whether any overlaps it. */
  lemma OneRangeDecidesOverlap(s: seq<Range>, r: Range)
    requires Sorted(s) && r.Ordered()
    ensures var e := FirstNotBefore(s, r);
            (!r.IsEmpty() && e < |s| && s[e].Overlaps(r)) <==> exists t :: Covers(s, t) && r.Has(t)
  {
    var e := FirstNotBefore(s, r);
    if !r.IsEmpty() && e < |s| && s[e].Overlaps(r) {
      OverlapsMeansCommonPoint(s[e], r);
      var t :| s[e].Has(t) && r.Has(t);
      assert Covers(s, t);
    }
    if t :| Covers(s, t) && r.Has(t) {
      var i :| 0 <= i < |s| && s[i].Has(t);
      assert e <= i;
      assert e < i ==> s[e].end <= s[i].start;
    }
  }

  // ---- the linked list, edited in place ------------------------------------

  /** container/list: an element is its place, and nil the place after the last. */
  class RangeList {
    var elems: seq<Range>

    constructor ()
      ensures elems == []
    {
      elems := [];
    }

    method PushBack(r: Range)
      modifies this
      ensures elems == old(elems) + [r]
    {
      elems := elems + [r];
    }

    method Remove(e: nat)
      requires e < |elems|
      modifies this
      ensures elems == old(elems)[..e] + old(elems)[e + 1..]
    {
      elems := elems[..e] + elems[e + 1..];
    }

    method InsertBefore(r: Range, e: nat)
      requires e < |elems|
      modifies this
      ensures elems == old(elems)[..e] + [r] + old(elems)[e..]
    {
      elems := elems[..e] + [r] + elems[e..];
    }

    method InsertAfter(r: Range, e: nat)
      requires e < |elems|
      modifies this
      ensures elems == old(elems)[..e + 1] + [r] + old(elems)[e + 1..]
    {
      elems := elems[..e + 1] + [r] + elems[e + 1..];
    }

    /** What is left of an element takes its place. */
    method Replace(e: nat, res: seq<Range>)
      requires e < |elems| && |res| <= 2
      modifies this
      ensures elems == old(elems)[..e] + res + old(elems)[e + 1..]
    {
      if res == [] {
        Remove(e);
      } else {
        elems := elems[e := res[0]];
        if |res| == 2 {
          InsertAfter(res[1], e);
        }
      }
    }
  }

  /** The first element of the second part is replaced by put. */
  lemma Splice(a: seq<Range>, put: seq<Range>, b: seq<Range>)
    requires b != []
    ensures (a + b)[..|a|] + put + (a + b)[|a| + 1..] == (a + put) + b[1..]
    ensures (a + b)[..|a|] + (a + b)[|a| + 1..] == a + b[1..]
  {
    assert (a + b)[..|a|] == a && (a + b)[|a| + 1..] == b[1..];
  }

  /** Carving the first of the ranges that are left. */
  lemma CarveStep(done: seq<Range>, rest: seq<Range>, r: Range)
    requires rest != [] && rest[0].Overlaps(r)
    ensures var res, s := rest[0].Subtract(r), done + rest;
            && s[|done|] == rest[0]
            && s[..|done|] + res + s[|done| + 1..] == (done + res) + rest[1..]
            && done + Carve(rest, r) == (done + res) + Carve(rest[1..], r)
  {
    var res := rest[0].Subtract(r);
    Splice(done, res, rest);
    Reassociate(done, res, Carve(rest[1..], r));
  }

  lemma PutBefore(a: seq<Range>, m: Range, b: seq<Range>)
    ensures (a + b)[..|a|] + [m] + (a + b)[|a|..] == a + ([m] + b)
    ensures b == [] ==> (a + b) + [m] == a + ([m] + b)
  {
    assert (a + b)[..|a|] == a && (a + b)[|a|..] == b;
  }

  lemma SplitTail(s: seq<Range>, e: nat)
    requires 0 < e <= |s|
    ensures s[1..][..e - 1] == s[1..e] && s[1..][e - 1..] == s[e..] && [s[0]] + s[1..e] == s[..e]
  {
  }

  lemma {:induction false} InsertSplits(s: seq<Range>, r: Range)
    ensures var e := FirstNotBefore(s, r); Insert(s, r) == s[..e] + Absorb(s[e..], r)
  {
    var e := FirstNotBefore(s, r);
    if e == 0 {
      assert s[..e] == [] && s[e..] == s;
    } else {
      InsertSplits(s[1..], r);
      SplitTail(s, e);
      Reassociate([s[0]], s[1..e], Absorb(s[e..], r));
    }
  }

  lemma {:induction false} CutSplits(s: seq<Range>, r: Range)
    ensures var e := FirstNotBefore(s, r); Cut(s, r) == s[..e] + Carve(s[e..], r)
  {
    var e := FirstNotBefore(s, r);
    if e == 0 {
      assert s[..e] == [] && s[e..] == s;
    } else {
      CutSplits(s[1..], r);
      SplitTail(s, e);
      Reassociate([s[0]], s[1..e], Carve(s[e..], r));
    }
  }

  class RangeIter {
    const ranges: RangeList?
    var cur: Option<nat>

    constructor (ranges: RangeList?)
      ensures this.ranges == ranges && cur == None
    {
      this.ranges := ranges;
      cur := None;
    }

    method Next() returns (more: bool)
      modifies this
      ensures more <==> ranges != null && (if old(cur).Some? then old(cur).value + 1 else 0) < |ranges.elems|
      ensures cur == if more then Some(if old(cur).Some? then old(cur).value + 1 else 0)
                     else if ranges == null then old(cur)
                     else None
    {
      if ranges == null {
        return false;
      }
      var next := if cur.None? then 0 else cur.value + 1;
      cur := if next < |ranges.elems| then Some(next) else None;
      return cur.Some?;
    }

    method Value() returns (r: Range)
      requires cur.Some? ==> ranges != null && cur.value < |ranges.elems|
      ensures r == if cur.None? then Range(0, 0) else ranges.elems[cur.value]
    {
      if cur.None? {
        return Range(0, 0);
      }
      return ranges.elems[cur.value];
    }
  }

  /** A collection; nil is the empty one. */
  datatype Ranges = Ranges(sortedRanges: RangeList?) {

    ghost function Elems(): seq<Range>
      reads sortedRanges
    {
      if sortedRanges == null then [] else sortedRanges.elems
    }

    method Len() returns (n: nat)
      ensures n == |Elems()|
    {
      if sortedRanges == null {
        return 0;
      }
      return |sortedRanges.elems|;
    }

    method IsEmpty() returns (empty: bool)
      requires Sorted(Elems())
      ensures empty <==> forall t :: !Covers(Elems(), t)
    {
      NoPointsMeansEmpty(Elems());
      var n := Len();
      return n == 0;
    }

    method FindFirstNotBefore(r: Range) returns (e: nat)
      ensures e == FirstNotBefore(Elems(), r)
    {
      if sortedRanges == null {
        return 0;
      }
      var s := sortedRanges.elems;
      e := 0;
      while e < |s|
        invariant e <= |s|
        invariant FirstNotBefore(s, r) == e + FirstNotBefore(s[e..], r)
      {
        if !s[e].Before(r) {
          return e;
        }
        assert s[e..][1..] == s[e + 1..];
        e := e + 1;
      }
    }

    method Overlaps(r: Range) returns (b: bool)
      requires Sorted(Elems()) && r.Ordered()
      ensures b <==> exists t :: Covers(Elems(), t) && r.Has(t)
    {
      OneRangeDecidesOverlap(Elems(), r);
      if r.IsEmpty() {
        return false;
      }
      var e := FindFirstNotBefore(r);
      if sortedRanges == null || e == |sortedRanges.elems| {
        return false;
      }
      return sortedRanges.elems[e].Overlaps(r);
    }

    method Clone() returns (res: Ranges)
      ensures res.sortedRanges != null && fresh(res.sortedRanges) && res.Elems() == Elems()
    {
      var l := new RangeList();
      res := Ranges(l);
      if sortedRanges == null {
        return;
      }
      for i := 0 to |sortedRanges.elems|
        invariant fresh(l) && l.elems == sortedRanges.elems[..i]
      {
        l.PushBack(sortedRanges.elems[i]);
      }
    }

    method AddRangeInPlace(r: Range)
      requires sortedRanges != null
      modifies sortedRanges
      ensures sortedRanges.elems == AddTo(old(sortedRanges.elems), r)
    {
      if r.IsEmpty() {
        return;
      }
      var merged := r;
      var e := FindFirstNotBefore(r);
      ghost var s := sortedRanges.elems;
      ghost var front, rest := s[..e], s[e..];
      InsertSplits(s, r);
      while e < |sortedRanges.elems|
        invariant |front| == e && sortedRanges.elems == front + rest
        invariant AddTo(s, r) == front + Absorb(rest, merged)
        decreases |rest|
      {
        var lr := sortedRanges.elems[e];
        if !lr.Overlaps(merged) {
          break;
        }
        merged := merged.Merge(lr);
        Splice(front, [], rest);
        sortedRanges.Remove(e);
        rest := rest[1..];
      }
      assert Absorb(rest, merged) == [merged] + rest;
      PutBefore(front, merged, rest);
      if e == |sortedRanges.elems| {
        sortedRanges.PushBack(merged);
      } else {
        sortedRanges.InsertBefore(merged, e);
      }
    }

    method RemoveRangeInPlace(r: Range)
      requires sortedRanges != null
      modifies sortedRanges
      ensures sortedRanges.elems == RemoveFrom(old(sortedRanges.elems), r)
    {
      if r.IsEmpty() {
        return;
      }
      var e := FindFirstNotBefore(r);
      ghost var s := sortedRanges.elems;
      ghost var done, rest := s[..e], s[e..];
      CutSplits(s, r);
      while e < |sortedRanges.elems|
        invariant |done| == e && sortedRanges.elems == done + rest
        invariant RemoveFrom(s, r) == done + Carve(rest, r)
        decreases |rest|
      {
        var lr := sortedRanges.elems[e];
        if !lr.Overlaps(r) {
          return;
        }
        var res := lr.Subtract(r);
        CarveStep(done, rest, r);
        sortedRanges.Replace(e, res);
        e := e + |res|;
        done, rest := done + res, rest[1..];
      }
    }

    method AddRange(r: Range) returns (res: Ranges)
      ensures res.sortedRanges != null && fresh(res.sortedRanges)
      ensures res.Elems() == AddTo(Elems(), r)
    {
      res := Clone();
      res.AddRangeInPlace(r);
    }

    method RemoveRange(r: Range) returns (res: Ranges)
      ensures res.sortedRanges != null && fresh(res.sortedRanges)
      ensures res.Elems() == RemoveFrom(Elems(), r)
    {
      res := Clone();
      res.RemoveRangeInPlace(r);
    }

    /** Iterates over the other collection, adding its ranges in place. */
    method AddEach(other: Ranges)
      requires sortedRanges != null && sortedRanges != other.sortedRanges
      modifies sortedRanges
      ensures sortedRanges.elems == AddAll(old(sortedRanges.elems), other.Elems())
    {
      var it := new RangeIter(other.sortedRanges);
      ghost var s, rs := sortedRanges.elems, other.Elems();
      ghost var i := 0;
      var more := it.Next();
      while more
        invariant fresh(it) && it.ranges == other.sortedRanges && other.Elems() == rs
        invariant 0 <= i <= |rs| && sortedRanges.elems == AddAll(s, rs[..i])
        invariant more ==> it.cur == Some(i) && i < |rs|
        invariant !more ==> i == |rs|
        decreases |rs| - i, more
      {
        var r := it.Value();
        assert rs[..i + 1][..i] == rs[..i] && rs[..i + 1][i] == r;
        AddRangeInPlace(r);
        i := i + 1;
        more := it.Next();
      }
      assert rs[..i] == rs;
    }

    /** Iterates over the other collection, removing its ranges in place. */
    method RemoveEach(other: Ranges)
      requires sortedRanges != null && sortedRanges != other.sortedRanges
      modifies sortedRanges
      ensures sortedRanges.elems == RemoveAll(old(sortedRanges.elems), other.Elems())
    {
      var it := new RangeIter(other.sortedRanges);
      ghost var s, rs := sortedRanges.elems, other.Elems();
      ghost var i := 0;
      var more := it.Next();
      while more
        invariant fresh(it) && it.ranges == other.sortedRanges && other.Elems() == rs
        invariant 0 <= i <= |rs| && sortedRanges.elems == RemoveAll(s, rs[..i])
        invariant more ==> it.cur == Some(i) && i < |rs|
        invariant !more ==> i == |rs|
        decreases |rs| - i, more
      {
        var r := it.Value();
        assert rs[..i + 1][..i] == rs[..i] && rs[..i + 1][i] == r;
        RemoveRangeInPlace(r);
        i := i + 1;
        more := it.Next();
      }
      assert rs[..i] == rs;
    }

    /** Union; neither collection changes. */
    method AddRanges(other: Ranges) returns (res: Ranges)
      requires Sorted(Elems()) && Sorted(other.Elems())
      ensures res.sortedRanges != null && fresh(res.sortedRanges)
      ensures res.Elems() == AddAll(Elems(), other.Elems()) && Sorted(res.Elems())
      ensures forall t :: Covers(res.Elems(), t) <==> Covers(Elems(), t) || Covers(other.Elems(), t)
    {
      res := Clone();
      res.AddEach(other);
      AddAllIsUnion(Elems(), other.Elems());
    }

    /** Difference; neither collection changes. */
    method RemoveRanges(other: Ranges) returns (res: Ranges)
      requires Sorted(Elems()) && Sorted(other.Elems())
      ensures res.sortedRanges != null && fresh(res.sortedRanges)
      ensures res.Elems() == RemoveAll(Elems(), other.Elems()) && Sorted(res.Elems())
      ensures forall t :: Covers(res.Elems(), t) <==> Covers(Elems(), t) && !Covers(other.Elems(), t)
    {
      res := Clone();
      res.RemoveEach(other);
      RemoveAllIsDifference(Elems(), other.Elems());
    }
  }

  method NewRanges(rs: seq<Range>) returns (res: Ranges)
    requires AllOrdered(rs)
    ensures res.Elems() == AddAll([], rs) && Sorted(res.Elems())
    ensures forall t :: Covers(res.Elems(), t) <==> Covers(rs, t)
  {
    res := Ranges(null);
    for i := 0 to |rs|
      invariant res.Elems() == AddAll([], rs[..i])
    {
      assert rs[..i + 1][..i] == rs[..i];
      res := res.AddRange(rs[i]);
    }
    assert rs[..|rs|] == rs;
    AddAllIsUnion([], rs);
  }
}
