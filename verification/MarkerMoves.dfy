/** What a sample does to the five markers of crs/app/quantile.py, on the numbers before and
    after, and what the first thresholds are. */
module MarkerMoves {
  import opened QuantileSpec

  /** Position and height of one marker. */
  datatype Mark = Mark(n: real, h: real)

  function At(m: Markers, i: nat): Mark
    requires Spread(m) && i <= 4
  {
    Mark(m.n[i], m.h[i])
  }

  /** A marker once the sample is counted: the last position grows by one, and so does that of an
      inner marker above the sample; the outer heights are the extremes. */
  function Counted(m: Markers, x: real, i: nat): Mark
    requires Spread(m) && i <= 4
  {
    if i == 0 then Mark(m.n[0], if x < m.h[0] then x else m.h[0])
    else if i == 4 then Mark(m.n[4] + 1.0, if x < m.h[4] then m.h[4] else x)
    else Mark(if x < m.h[i] then m.n[i] + 1.0 else m.n[i], m.h[i])
  }

  /** Where an inner marker goes: one position towards the desired one, if that is at least one
      away and there is room on that side. */
  function NewPosition(lower: Mark, at: Mark, upper: Mark, desired: real): real {
    if desired >= at.n + 1.0 && upper.n > at.n + 1.0 then at.n + 1.0
    else if desired <= at.n - 1.0 && lower.n < at.n - 1.0 then at.n - 1.0
    else at.n
  }

  /** The height on the straight line to the neighbour on the side of `n`. */
  ghost function OnLine(lower: Mark, at: Mark, upper: Mark, n: real): real
    requires lower.n < at.n < upper.n
  {
    if n > at.n then at.h + (upper.h - at.h) / (upper.n - at.n) else at.h - (at.h - lower.h) / (at.n - lower.n)
  }

  /** A marker that moves takes the height of the parabola through the three markers where that
      lies strictly between the neighbours' heights, else of the line. */
  ghost predicate Adjusted(lower: Mark, at: Mark, upper: Mark, desired: real, after: Mark)
    requires lower.n < at.n < upper.n
  {
    && after.n == NewPosition(lower, at, upper, desired)
    && var y := Quadratic(lower.h, at.h, upper.h, lower.n, at.n, upper.n, after.n);
       after.h == if after.n == at.n then at.h
                  else if lower.h < y < upper.h then y
                  else OnLine(lower, at, upper, after.n)
  }

  ghost predicate Between(lower: Mark, at: Mark, upper: Mark, desired: real, after: Mark) {
    lower.n < at.n < upper.n && Adjusted(lower, at, upper, desired, after)
  }

  /** Marker `i` is adjusted, and no other moves. */
  ghost predicate AdjustedAt(m: Markers, i: nat, r: Markers)
    requires Spread(m) && Spread(r) && 1 <= i <= 3
  {
    && Between(At(m, i - 1), At(m, i), At(m, i + 1), m.p[i], At(r, i))
    && r.p == m.p && forall j :: 0 <= j < 5 && j != i ==> At(r, j) == At(m, j)
  }

  lemma AdjustMoves(m: Markers, i: nat)
    requires Spread(m) && 1 <= i <= 3
    ensures AdjustedAt(m, i, Adjust(m, i))
  {
    if Moves(m, i) {
      var s := if m.p[i] - m.n[i] >= 1.0 then 1 else -1;
      ParabolicInterpolates(m.h[i - 1], m.h[i], m.h[i + 1], m.n[i - 1], m.n[i], m.n[i + 1], s as real);
      HeightOnLine(m, i, s);
    }
  }

  lemma HeightOnLine(m: Markers, i: nat, s: int)
    requires Spread(m) && 1 <= i <= 3 && (s == 1 || s == -1)
    ensures m.h[i] + Pull(s as real, m.h[i + s] - m.h[i], m.n[i + s] - m.n[i])
         == OnLine(At(m, i - 1), At(m, i), At(m, i + 1), m.n[i] + s as real)
  {
    if s == 1 {
      PullUp(m.h[i + 1] - m.h[i], m.n[i + 1] - m.n[i]);
    } else {
      PullDown(m.h[i] - m.h[i - 1], m.n[i] - m.n[i - 1], m.h[i - 1] - m.h[i], m.n[i - 1] - m.n[i]);
    }
  }

  lemma PullUp(x: real, d: real)
    requires d > 0.0
    ensures Pull(1.0, x, d) == x / d
  {
    assert 1.0 * x == x;
  }

  lemma PullDown(x: real, d: real, y: real, e: real)
    requires d > 0.0 && y == -x && e == -d
    ensures Pull(-1.0, y, e) == -(x / d)
  {
    assert -1.0 * y == x;
    FlipSigns(x, d);
    assert (x / e) * e == x && (x / e) * d == -x;
  }

  lemma PlaceCounts(q: real, m: Markers, x: real)
    requires Spread(m) && Rising(m.h)
    ensures var (h, k) := Place(m.h, x);
      var r := Markers(h, Shift(m.n, k), Advance(m.p, q));
      Spread(r) && forall i :: 0 <= i <= 4 ==> At(r, i) == Counted(m, x, i)
  {
    var (h, k) := Place(m.h, x);
    assert forall i :: 1 <= i <= 3 ==> (i > k <==> x < m.h[i]);
    var n := Shift(m.n, k);
    assert n[0] == m.n[0] && n[4] == m.n[4] + 1.0;
  }

  /** One sample. The desired positions advance; the outer markers take the extremes; the inner
      ones are adjusted from below, each between the one below as adjusted and the one above as
      counted. */
  ghost predicate Follows(q: real, m: Markers, x: real, r: Markers)
    requires Spread(m) && Spread(r)
  {
    && r.p == [m.p[0], m.p[1] + q / 2.0, m.p[2] + q, m.p[3] + (1.0 + q) / 2.0, m.p[4] + 1.0]
    && At(r, 0) == Counted(m, x, 0) && At(r, 4) == Counted(m, x, 4)
    && Between(At(r, 0), Counted(m, x, 1), Counted(m, x, 2), r.p[1], At(r, 1))
    && Between(At(r, 1), Counted(m, x, 2), Counted(m, x, 3), r.p[2], At(r, 2))
    && Between(At(r, 2), Counted(m, x, 3), Counted(m, x, 4), r.p[3], At(r, 3))
  }

  lemma AdvanceByThe(q: real, p: seq<real>)
    requires |p| == 5
    ensures Advance(p, q) == [p[0], p[1] + q / 2.0, p[2] + q, p[3] + (1.0 + q) / 2.0, p[4] + 1.0]
  {
  }

  /** The three inner markers are adjusted from below. */
  ghost predicate AllBetween(m: Markers, r: Markers)
    requires Spread(m) && Spread(r)
  {
    && r.p == m.p && At(r, 0) == At(m, 0) && At(r, 4) == At(m, 4)
    && Between(At(r, 0), At(m, 1), At(m, 2), m.p[1], At(r, 1))
    && Between(At(r, 1), At(m, 2), At(m, 3), m.p[2], At(r, 2))
    && Between(At(r, 2), At(m, 3), At(m, 4), m.p[3], At(r, 3))
  }

  lemma OneAfterAnother(m: Markers, m1: Markers, m2: Markers, r: Markers)
    requires Spread(m) && Spread(m1) && Spread(m2) && Spread(r)
    requires AdjustedAt(m, 1, m1) && AdjustedAt(m1, 2, m2) && AdjustedAt(m2, 3, r)
    ensures AllBetween(m, r)
  {
    assert At(r, 0) == At(m2, 0) == At(m1, 0) && At(r, 1) == At(m2, 1) == At(m1, 1) && At(r, 2) == At(m2, 2);
    assert At(m1, 2) == At(m, 2) && At(m2, 3) == At(m1, 3) == At(m, 3) && At(r, 4) == At(m2, 4) == At(m1, 4);
  }

  lemma AdjustedNext(m: Markers, c: nat)
    requires Spread(m) && 1 <= c <= 3
    ensures AdjustedAt(AdjustUpTo(m, c - 1), c, AdjustUpTo(m, c))
  {
    AdjustMoves(AdjustUpTo(m, c - 1), c);
  }

  lemma AllAdjusted(m: Markers)
    requires Spread(m)
    ensures AllBetween(m, AdjustUpTo(m, 3))
  {
    AdjustedNext(m, 1);
    AdjustedNext(m, 2);
    AdjustedNext(m, 3);
    OneAfterAnother(m, AdjustUpTo(m, 1), AdjustUpTo(m, 2), AdjustUpTo(m, 3));
  }

  /** What a sample does to the markers. */
  lemma AddMoves(q: real, m: Markers, x: real)
    requires Spread(m) && Rising(m.h)
    ensures Follows(q, m, x, AddMarker(q, m, x))
  {
    var (h, k) := Place(m.h, x);
    PlaceCounts(q, m, x);
    AdvanceByThe(q, m.p);
    AllAdjusted(Markers(h, Shift(m.n, k), Advance(m.p, q)));
  }

  lemma OnePlace(lower: Mark, at: Mark, upper: Mark, desired: real, a: Mark, b: Mark)
    requires Between(lower, at, upper, desired, a) && Between(lower, at, upper, desired, b)
    ensures a == b
  {
  }

  lemma SameMarks(a: Markers, b: Markers)
    requires Spread(a) && Spread(b) && a.p == b.p
    requires At(a, 0) == At(b, 0) && At(a, 1) == At(b, 1) && At(a, 2) == At(b, 2) && At(a, 3) == At(b, 3)
    requires At(a, 4) == At(b, 4)
    ensures a == b
  {
    assert a.n == b.n && a.h == b.h;
  }

  /** There is only one way to follow. */
  lemma FollowsIsUnique(q: real, m: Markers, x: real, a: Markers, b: Markers)
    requires Spread(m) && Spread(a) && Spread(b) && Follows(q, m, x, a) && Follows(q, m, x, b)
    ensures a == b
  {
    OnePlace(At(a, 0), Counted(m, x, 1), Counted(m, x, 2), a.p[1], At(a, 1), At(b, 1));
    OnePlace(At(a, 1), Counted(m, x, 2), Counted(m, x, 3), a.p[2], At(a, 2), At(b, 2));
    OnePlace(At(a, 2), Counted(m, x, 3), Counted(m, x, 4), a.p[3], At(a, 3), At(b, 3));
    SameMarks(a, b);
  }

  /** So every sample after the fifth moves the markers of the estimator. */
  lemma SampleMoves(q: real, xs: seq<real>, x: real)
    requires |xs| >= 5
    ensures Spread(Fed(q, xs).m) && Spread(Fed(q, xs + [x]).m)
    ensures Follows(q, Fed(q, xs).m, x, Fed(q, xs + [x]).m)
  {
    MarkersStayFaithful(q, xs);
    FedOneMore(q, xs, x);
    AddMoves(q, Fed(q, xs).m, x);
  }

  /** The desired positions after a first sample and `n` more. */
  ghost predicate Desired(q: real, p: seq<real>, n: real) {
    && |p| == 5 && p[0] == 1.0 && p[1] == 1.0 + q / 2.0 * n && p[2] == 1.0 + q * n
    && p[3] == 1.0 + (1.0 + q) / 2.0 * n && p[4] == 1.0 + n
  }

  lemma DesiredPositions(q: real, xs: seq<real>)
    requires |xs| >= 5
    ensures Desired(q, Fed(q, xs).m.p, |xs| as real - 1.0)
  {
    MarkersStayFaithful(q, xs);
    SharesOf(q, Fed(q, xs).m, xs);
  }

  lemma SharesOf(q: real, m: Markers, xs: seq<real>)
    requires Faithful(q, m, xs)
    ensures Desired(q, m.p, |xs| as real - 1.0)
  {
    var d := Increment(q);
    assert d[0] == 0.0 && d[1] == q / 2.0 && d[2] == q && d[3] == (1.0 + q) / 2.0 && d[4] == 1.0;
  }

  // ---------------------------------------------------------------- the first samples

  function CountBelow(xs: seq<real>, t: real): nat {
    if xs == [] then 0 else CountBelow(xs[1..], t) + if xs[0] < t then 1 else 0
  }

  function CountUpTo(xs: seq<real>, t: real): nat {
    if xs == [] then 0 else CountUpTo(xs[1..], t) + if xs[0] <= t then 1 else 0
  }

  lemma {:induction false} InsertCounts(x: real, s: seq<real>, t: real)
    ensures CountBelow(Insert(x, s), t) == CountBelow(s, t) + if x < t then 1 else 0
    ensures CountUpTo(Insert(x, s), t) == CountUpTo(s, t) + if x <= t then 1 else 0
  {
    if s == [] || x <= s[0] {
      assert ([x] + s)[1..] == s;
    } else {
      InsertCounts(x, s[1..], t);
      assert Insert(x, s)[1..] == Insert(x, s[1..]);
    }
  }

  lemma {:induction false} SortCounts(s: seq<real>, t: real)
    ensures CountBelow(SortUp(s), t) == CountBelow(s, t) && CountUpTo(SortUp(s), t) == CountUpTo(s, t)
  {
    if s != [] {
      SortCounts(s[1..], t);
      InsertCounts(s[0], SortUp(s[1..]), t);
    }
  }

  /** In a sorted sequence at most `r` elements lie below the one at `r`, and at least `r + 1` do
      not lie above it. */
  lemma {:induction false} CountsAt(s: seq<real>, r: nat, t: real)
    requires Sorted(s) && r < |s| && t == s[r]
    ensures CountBelow(s, t) <= r && CountUpTo(s, t) >= r + 1
  {
    if r == 0 {
      NoneBelow(s, t);
    } else {
      assert s[1..][r - 1] == t && s[0] <= s[r];
      CountsAt(s[1..], r - 1, t);
    }
  }

  lemma {:induction false} NoneBelow(s: seq<real>, t: real)
    requires forall i :: 0 <= i < |s| ==> t <= s[i]
    ensures CountBelow(s, t) == 0
  {
    if s != [] {
      NoneBelow(s[1..], t);
    }
  }

  lemma RankBounds(q: real, n: nat)
    requires 0.0 < q < 1.0 && n > 0
    ensures 0 <= Rank(q, n) < n && (Rank(q, n) as real) < q * n as real <= Rank(q, n) as real + 1.0
  {
    RankInRange(q, n);
    assert q * n as real > 0.0;
  }

  /** Up to four samples the threshold is their nearest-rank quantile: one of them, with fewer
      than the share `q` of the samples below it and no fewer up to it. The fifth makes it the
      median. */
  lemma FirstThresholds(q: real, xs: seq<real>)
    requires 0.0 < q < 1.0 && 1 <= |xs| <= 5
    ensures var t := Threshold(q, Fed(q, xs));
      && t in xs
      && (|xs| < 5 ==> CountBelow(xs, t) as real < q * |xs| as real <= CountUpTo(xs, t) as real)
      && (|xs| == 5 ==> CountBelow(xs, t) <= 2 && CountUpTo(xs, t) >= 3)
  {
    var r := if |xs| == 5 then 2 else Rank(q, |xs|);
    RankBounds(q, |xs|);
    FirstThreshold(q, xs, SortUp(xs), r);
    RankedCounts(xs, SortUp(xs), r);
  }

  lemma RankedCounts(xs: seq<real>, s: seq<real>, r: nat)
    requires s == SortUp(xs) && r < |s|
    ensures s[r] in xs && CountBelow(xs, s[r]) <= r && r + 1 <= CountUpTo(xs, s[r])
  {
    SortSorts(xs);
    assert s[r] in multiset(s) && multiset(s) == multiset(xs);
    CountsAt(s, r, s[r]);
    SortCounts(xs, s[r]);
  }

  lemma FirstThreshold(q: real, xs: seq<real>, s: seq<real>, r: nat)
    requires 0.0 < q < 1.0 && 1 <= |xs| <= 5 && s == SortUp(xs)
    requires r == if |xs| == 5 then 2 else Rank(q, |xs|)
    ensures r < |s| && Threshold(q, Fed(q, xs)) == s[r]
  {
    RankBounds(q, |xs|);
    SamplesAreKept(q, xs);
    if |xs| == 5 {
      assert Fed(q, xs).v == xs;
      assert Fed(q, xs).m == FirstMarkers(q, Fed(q, xs).v);
    }
  }

  // ---------------------------------------------------------------- one to eight

  const FIVE: Markers := Markers([1.0, 2.0, 3.0, 4.0, 5.0], [1.0, 2.0, 3.0, 4.0, 5.0], [1.0, 2.0, 3.0, 4.0, 5.0])
  const SIX: Markers := Markers([1.0, 2.0, 3.0, 4.0, 6.0], [1.0, 2.0, 3.0, 4.0, 6.0], [1.0, 2.25, 3.5, 4.75, 6.0])
  const SEVEN: Markers := Markers([1.0, 2.0, 3.0, 5.0, 7.0], [1.0, 2.0, 3.0, 5.0, 7.0], [1.0, 2.5, 4.0, 5.5, 7.0])
  const EIGHT: Markers := Markers([1.0, 2.0, 4.0, 6.0, 8.0], [1.0, 2.0, 4.0, 6.0, 8.0], [1.0, 2.75, 4.5, 6.25, 8.0])

  lemma OneOf(d: real)
    requires d != 0.0
    ensures d / d == 1.0
  {
  }

  lemma StraightOn(c: real, u: real, w: real)
    requires c != 0.0
    ensures Newton(1.0, 1.0, c, u, w) == u
  {
    assert 0.0 / c == 0.0;
  }

  /** On the line where height equals position a marker moves along that line. */
  lemma MovesUp(a: real, b: real, c: real, desired: real)
    requires a < b && b + 1.0 < c && desired >= b + 1.0
    ensures Between(Mark(a, a), Mark(b, b), Mark(c, c), desired, Mark(b + 1.0, b + 1.0))
  {
    OneOf(b - a);
    OneOf(c - b);
    StraightOn(c - a, b + 1.0 - b, b + 1.0 - a);
  }

  lemma StaysPut(lower: Mark, at: Mark, upper: Mark, desired: real)
    requires lower.n < at.n < upper.n && at.n - 1.0 < desired
    requires desired < at.n + 1.0 || upper.n <= at.n + 1.0
    ensures Between(lower, at, upper, desired, at)
  {
  }

  lemma Sixth()
    ensures AddMarker(0.5, FIVE, 6.0) == SIX
  {
    AddMoves(0.5, FIVE, 6.0);
    StaysPut(Mark(1.0, 1.0), Mark(2.0, 2.0), Mark(3.0, 3.0), 2.25);
    StaysPut(Mark(2.0, 2.0), Mark(3.0, 3.0), Mark(4.0, 4.0), 3.5);
    StaysPut(Mark(3.0, 3.0), Mark(4.0, 4.0), Mark(6.0, 6.0), 4.75);
    FollowsIsUnique(0.5, FIVE, 6.0, AddMarker(0.5, FIVE, 6.0), SIX);
  }

  lemma Seventh()
    ensures AddMarker(0.5, SIX, 7.0) == SEVEN
  {
    AddMoves(0.5, SIX, 7.0);
    StaysPut(Mark(1.0, 1.0), Mark(2.0, 2.0), Mark(3.0, 3.0), 2.5);
    StaysPut(Mark(2.0, 2.0), Mark(3.0, 3.0), Mark(4.0, 4.0), 4.0);
    MovesUp(3.0, 4.0, 7.0, 5.5);
    FollowsIsUnique(0.5, SIX, 7.0, AddMarker(0.5, SIX, 7.0), SEVEN);
  }

  lemma Eighth()
    ensures AddMarker(0.5, SEVEN, 8.0) == EIGHT
  {
    AddMoves(0.5, SEVEN, 8.0);
    StaysPut(Mark(1.0, 1.0), Mark(2.0, 2.0), Mark(3.0, 3.0), 2.75);
    MovesUp(2.0, 3.0, 5.0, 4.5);
    MovesUp(4.0, 5.0, 8.0, 6.25);
    FollowsIsUnique(0.5, SEVEN, 8.0, AddMarker(0.5, SEVEN, 8.0), EIGHT);
  }

  /** Samples 1 to 8 at one half: the seventh moves the fourth marker and the eighth the third
      and fourth. */
  lemma OneToEight()
    ensures var xs := [1.0, 2.0, 3.0, 4.0, 5.0, 6.0, 7.0, 8.0];
      Threshold(0.5, Fed(0.5, xs[..7])) == 3.0 && Threshold(0.5, Fed(0.5, xs)) == 4.0
  {
    var xs := [1.0, 2.0, 3.0, 4.0, 5.0];
    FirstFive(xs);
    FedOneMore(0.5, xs, 6.0);
    Sixth();
    FedOneMore(0.5, xs + [6.0], 7.0);
    Seventh();
    FedOneMore(0.5, xs + [6.0] + [7.0], 8.0);
    Eighth();
    var all := [1.0, 2.0, 3.0, 4.0, 5.0, 6.0, 7.0, 8.0];
    assert all[..7] == xs + [6.0] + [7.0] && all == xs + [6.0] + [7.0] + [8.0];
  }

  lemma FirstFive(xs: seq<real>)
    requires xs == [1.0, 2.0, 3.0, 4.0, 5.0]
    ensures Fed(0.5, xs).m == FIVE
  {
    SamplesAreKept(0.5, xs);
    SortOfSorted(xs);
    assert Fed(0.5, xs).v == xs;
    assert Fed(0.5, xs).m == FirstMarkers(0.5, Fed(0.5, xs).v);
  }
}
