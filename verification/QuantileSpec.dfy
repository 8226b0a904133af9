/** The streaming quantile estimator of crs/app/quantile.py, after Jain and Chlamtac's P2
    algorithm, as a function of the samples fed to it. */
module QuantileSpec {

  /** Heights, positions and desired positions of the five markers. */
  datatype Markers = Markers(h: seq<real>, n: seq<real>, p: seq<real>)

  /** `v` holds the first five samples; the markers count from the fifth on. */
  datatype State = State(cnt: nat, v: seq<real>, m: Markers)

  /** How far each desired position moves per sample. */
  function Increment(q: real): (d: seq<real>)
    ensures |d| == 5
  {
    [0.0, q / 2.0, q, (1.0 + q) / 2.0, 1.0]
  }

  // ---------------------------------------------------------------- one sample

  predicate Spread(m: Markers) {
    && |m.h| == 5 && |m.n| == 5 && |m.p| == 5
    && m.n[0] < m.n[1] < m.n[2] < m.n[3] < m.n[4]
  }

  /** The heights with a new extreme entered, and the cell the sample falls in. */
  function Place(h: seq<real>, x: real): (r: (seq<real>, nat))
    requires |h| == 5
    ensures |r.0| == 5 && r.1 <= 3
  {
    if x < h[0] then (h[0 := x], 0)
    else if x >= h[4] then (h[4 := x], 3)
    else if h[0] <= x < h[1] then (h, 0)
    else if h[1] <= x < h[2] then (h, 1)
    else if h[2] <= x < h[3] then (h, 2)
    else (h, 3)
  }

  function Shift(n: seq<real>, k: nat): (r: seq<real>)
    requires |n| == 5
    ensures |r| == 5 && forall i :: 0 <= i < 5 ==> r[i] == if i > k then n[i] + 1.0 else n[i]
  {
    seq(5, i requires 0 <= i < 5 => if i > k then n[i] + 1.0 else n[i])
  }

  function Advance(p: seq<real>, q: real): (r: seq<real>)
    requires |p| == 5
    ensures |r| == 5 && forall i :: 0 <= i < 5 ==> r[i] == p[i] + Increment(q)[i]
  {
    seq(5, i requires 0 <= i < 5 => p[i] + Increment(q)[i])
  }

  /** The rise the P2 formula gives a step of `s`: `a` and `b` are the distances to the markers
      below and above, `c` the distance between those, `x` and `y` the rises above and below. */
  function Rise(a: real, b: real, c: real, s: real, x: real, y: real): real
    requires a != 0.0 && b != 0.0 && c != 0.0
  {
    s / c * (Pull(a + s, x, b) + Pull(b - s, y, a))
  }

  function Pull(k: real, x: real, d: real): real
    requires d != 0.0
  {
    k * x / d
  }

  /** The P2 prediction for a marker at `n`, height `h`, moved by `s`, from its neighbours. */
  function Parabolic(h0: real, h: real, h1: real, n0: real, n: real, n1: real, s: real): real
    requires n0 < n < n1
  {
    h + Rise(n - n0, n1 - n, n1 - n0, s, h1 - h, h - h0)
  }

  /** Whether inner marker `i` is to move. */
  predicate Moves(m: Markers, i: nat)
    requires Spread(m) && 1 <= i <= 3
  {
    var d := m.p[i] - m.n[i];
    (d >= 1.0 && m.n[i + 1] - m.n[i] > 1.0) || (d <= -1.0 && m.n[i - 1] - m.n[i] < -1.0)
  }

  function Height(m: Markers, i: nat, s: int): real
    requires Spread(m) && 1 <= i <= 3 && (s == 1 || s == -1)
  {
    var hp := Parabolic(m.h[i - 1], m.h[i], m.h[i + 1], m.n[i - 1], m.n[i], m.n[i + 1], s as real);
    if m.h[i - 1] < hp < m.h[i + 1] then hp
    else m.h[i] + Pull(s as real, m.h[i + s] - m.h[i], m.n[i + s] - m.n[i])
  }

  function Adjust(m: Markers, i: nat): (r: Markers)
    requires Spread(m) && 1 <= i <= 3
    ensures Spread(r)
  {
    if Moves(m, i) then
      var s := if m.p[i] - m.n[i] >= 1.0 then 1 else -1;
      Markers(m.h[i := Height(m, i, s)], m.n[i := m.n[i] + s as real], m.p)
    else m
  }

  /** The inner markers up to the `c`-th adjusted, from below. */
  function AdjustUpTo(m: Markers, c: nat): (r: Markers)
    requires Spread(m) && c <= 3
    ensures Spread(r)
  {
    if c == 0 then m else Adjust(AdjustUpTo(m, c - 1), c)
  }

  function AddMarker(q: real, m: Markers, x: real): (r: Markers)
    requires Spread(m)
    ensures Spread(r)
  {
    var (h, k) := Place(m.h, x);
    AdjustUpTo(Markers(h, Shift(m.n, k), Advance(m.p, q)), 3)
  }

  // ---------------------------------------------------------------- the estimator

  function Insert(x: real, s: seq<real>): (r: seq<real>)
    ensures |r| == |s| + 1
  {
    if s == [] || x <= s[0] then [x] + s else [s[0]] + Insert(x, s[1..])
  }

  function SortUp(s: seq<real>): (r: seq<real>)
    ensures |r| == |s|
  {
    if s == [] then [] else Insert(s[0], SortUp(s[1..]))
  }

  function Ceil(x: real): int { if x.Floor as real == x then x.Floor else x.Floor + 1 }

  function Max(a: int, b: int): int { if a < b then b else a }

  /** Index of the exact quantile of `n` sorted samples. */
  function Rank(q: real, n: nat): int { Max(0, Ceil(q * n as real) - 1) }

  lemma RankInRange(q: real, n: nat)
    requires 0.0 < q < 1.0 && n > 0
    ensures 0 <= Rank(q, n) < n
  {
    assert q * n as real <= n as real;
  }

  function FirstMarkers(q: real, v: seq<real>): (m: Markers)
    requires |v| == 5
    ensures Spread(m)
  {
    var d := Increment(q);
    Markers(SortUp(v), [1.0, 2.0, 3.0, 4.0, 5.0],
            [1.0 + d[0] * 4.0, 1.0 + d[1] * 4.0, 1.0 + d[2] * 4.0, 1.0 + d[3] * 4.0, 1.0 + d[4] * 4.0])
  }

  predicate Ready(s: State) {
    |s.v| == 5 && (s.cnt >= 5 ==> Spread(s.m))
  }

  const INIT: State := State(0, [0.0, 0.0, 0.0, 0.0, 0.0], Markers([], [], []))

  function Feed(q: real, s: State, x: real): (t: State)
    requires Ready(s)
    ensures Ready(t) && t.cnt == s.cnt + 1
  {
    if s.cnt < 4 then State(s.cnt + 1, s.v[s.cnt := x], s.m)
    else if s.cnt == 4 then
      var v := s.v[4 := x];
      State(5, v, FirstMarkers(q, v))
    else State(s.cnt + 1, s.v, AddMarker(q, s.m, x))
  }

  function Threshold(q: real, s: State): real
    requires 0.0 < q < 1.0 && Ready(s)
  {
    if s.cnt == 0 then 0.0
    else if s.cnt < 5 then
      RankInRange(q, s.cnt);
      SortUp(s.v[..s.cnt])[Rank(q, s.cnt)]
    else s.m.h[2]
  }

  /** The estimator after a sequence of samples. */
  function Fed(q: real, xs: seq<real>): (s: State)
    ensures Ready(s) && s.cnt == |xs|
  {
    if xs == [] then INIT else Feed(q, Fed(q, xs[..|xs| - 1]), xs[|xs| - 1])
  }

  lemma FedOneMore(q: real, xs: seq<real>, x: real)
    ensures Fed(q, xs + [x]) == Feed(q, Fed(q, xs), x)
  {
    assert (xs + [x])[..|xs|] == xs;
  }

  // ---------------------------------------------------------------- sorting

  ghost predicate Sorted(s: seq<real>) {
    forall i, j :: 0 <= i < j < |s| ==> s[i] <= s[j]
  }

  lemma {:induction false} InsertKeeps(x: real, s: seq<real>)
    ensures multiset(Insert(x, s)) == multiset{x} + multiset(s)
  {
    if s != [] && x > s[0] {
      InsertKeeps(x, s[1..]);
      assert s == [s[0]] + s[1..];
    }
  }

  lemma {:induction false} InsertSorts(x: real, s: seq<real>)
    requires Sorted(s)
    ensures Sorted(Insert(x, s))
    ensures Insert(x, s)[0] == x || (s != [] && Insert(x, s)[0] == s[0])
  {
    if s != [] && x > s[0] {
      var t := Insert(x, s[1..]);
      InsertSorts(x, s[1..]);
      forall i | 0 <= i < |t| ensures s[0] <= t[i] {
        assert s[0] <= t[0];
      }
    }
  }

  lemma {:induction false} SortSorts(s: seq<real>)
    ensures Sorted(SortUp(s)) && multiset(SortUp(s)) == multiset(s)
  {
    if s != [] {
      SortSorts(s[1..]);
      InsertSorts(s[0], SortUp(s[1..]));
      InsertKeeps(s[0], SortUp(s[1..]));
      assert s == [s[0]] + s[1..];
    }
  }

  lemma {:induction false} SortOfSorted(s: seq<real>)
    requires Sorted(s)
    ensures SortUp(s) == s
  {
    if s != [] {
      SortOfSorted(s[1..]);
      assert s == [s[0]] + s[1..];
    }
  }

  // ---------------------------------------------------------------- the invariant

  ghost predicate IsMin(xs: seq<real>, m: real) { m in xs && forall x :: x in xs ==> m <= x }
  ghost predicate IsMax(xs: seq<real>, m: real) { m in xs && forall x :: x in xs ==> x <= m }

  ghost predicate Rising(h: seq<real>) {
    |h| == 5 && h[0] <= h[1] <= h[2] <= h[3] <= h[4]
  }

  /** What holds of the markers after the samples `xs`. */
  ghost predicate Faithful(q: real, m: Markers, xs: seq<real>) {
    && Spread(m) && m.n[0] == 1.0 && m.n[4] == |xs| as real
    && Rising(m.h) && IsMin(xs, m.h[0]) && IsMax(xs, m.h[4])
    && forall i :: 0 <= i < 5 ==> m.p[i] == 1.0 + Increment(q)[i] * (|xs| as real - 1.0)
  }

  lemma QuotientBelow(a: real, b: real)
    requires a >= 0.0 && b > 1.0
    ensures 0.0 <= a / b <= a
  {
    var c := a / b;
    assert c >= 0.0 && c * b == a;
    assert c * (b - 1.0) >= 0.0;
  }

  /** The new height of a moved marker lies between its neighbours' heights. */
  lemma HeightBetween(m: Markers, i: nat, s: int)
    requires Spread(m) && Rising(m.h) && 1 <= i <= 3 && Moves(m, i)
    requires s == if m.p[i] - m.n[i] >= 1.0 then 1 else -1
    ensures m.h[i - 1] <= Height(m, i, s) <= m.h[i + 1]
  {
    if s == 1 {
      QuotientBelow(m.h[i + 1] - m.h[i], m.n[i + 1] - m.n[i]);
    } else {
      QuotientBelow(m.h[i] - m.h[i - 1], m.n[i] - m.n[i - 1]);
      FlipSigns(m.h[i - 1] - m.h[i], m.n[i - 1] - m.n[i]);
    }
  }

  lemma FlipSigns(a: real, b: real)
    requires b != 0.0
    ensures a / b == (-a) / (-b) && -1.0 * a / b == -(a / b)
  {
  }

  lemma AdjustKeepsFaith(q: real, m: Markers, i: nat, xs: seq<real>)
    requires Faithful(q, m, xs) && 1 <= i <= 3
    ensures Faithful(q, Adjust(m, i), xs)
  {
    if Moves(m, i) {
      HeightBetween(m, i, if m.p[i] - m.n[i] >= 1.0 then 1 else -1);
    }
  }

  lemma PlaceKeepsFaith(q: real, m: Markers, xs: seq<real>, x: real)
    requires Faithful(q, m, xs)
    ensures var (h, k) := Place(m.h, x);
            Faithful(q, Markers(h, Shift(m.n, k), Advance(m.p, q)), xs + [x])
  {
    forall i | 0 <= i < 5
      ensures Advance(m.p, q)[i] == 1.0 + Increment(q)[i] * (|xs + [x]| as real - 1.0)
    {
    }
  }

  lemma {:induction false} AdjustUpToKeepsFaith(q: real, m: Markers, c: nat, xs: seq<real>)
    requires Faithful(q, m, xs) && c <= 3
    ensures Faithful(q, AdjustUpTo(m, c), xs)
  {
    if c > 0 {
      AdjustUpToKeepsFaith(q, m, c - 1, xs);
      AdjustKeepsFaith(q, AdjustUpTo(m, c - 1), c, xs);
    }
  }

  lemma AddKeepsFaith(q: real, m: Markers, xs: seq<real>, x: real)
    requires Faithful(q, m, xs)
    ensures Faithful(q, AddMarker(q, m, x), xs + [x])
  {
    var (h, k) := Place(m.h, x);
    PlaceKeepsFaith(q, m, xs, x);
    AdjustUpToKeepsFaith(q, Markers(h, Shift(m.n, k), Advance(m.p, q)), 3, xs + [x]);
  }

  lemma FirstMarkersFaithful(q: real, v: seq<real>)
    requires |v| == 5
    ensures Faithful(q, FirstMarkers(q, v), v)
  {
    SortSorts(v);
    var s := SortUp(v);
    forall x ensures x in v <==> x in s {
      assert x in v <==> x in multiset(v);
      assert x in s <==> x in multiset(s);
    }
    assert s[0] in s && s[4] in s;
  }

  lemma {:induction false} SamplesAreKept(q: real, xs: seq<real>)
    requires |xs| <= 5
    ensures Fed(q, xs).v[..|xs|] == xs
  {
    if xs != [] {
      SamplesAreKept(q, xs[..|xs| - 1]);
    }
  }

  /** From the fifth sample on, for every sample sequence: positions strictly increase from 1
      to the count, heights do not fall and end in the exact extremes, and the desired
      positions are where they should be. */
  lemma {:induction false} MarkersStayFaithful(q: real, xs: seq<real>)
    requires |xs| >= 5
    ensures Faithful(q, Fed(q, xs).m, xs)
    decreases |xs|
  {
    var front := xs[..|xs| - 1];
    assert xs == front + [xs[|xs| - 1]];
    if |xs| == 5 {
      SamplesAreKept(q, xs);
      assert Fed(q, xs).v == xs && Fed(q, xs).m == FirstMarkers(q, Fed(q, xs).v);
      FirstMarkersFaithful(q, xs);
    } else {
      MarkersStayFaithful(q, front);
      AddKeepsFaith(q, Fed(q, front).m, front, xs[|xs| - 1]);
    }
  }

  // ---------------------------------------------------------------- rising input

  /** While the samples never fall: marker 1 is never due to move down, and marker 2 neither,
      or has no room to. */
  predicate Climbs(m: Markers)
    requires Spread(m)
  {
    m.n[1] >= 2.0 && m.p[1] - m.n[1] > -1.0 && (m.n[2] == 3.0 || m.p[2] >= m.n[2])
  }

  lemma UpwardHeight(m: Markers)
    requires Spread(m) && Rising(m.h) && m.n[3] - m.n[2] > 1.0
    ensures m.h[2] <= Height(m, 2, 1)
  {
    QuotientBelow(m.h[3] - m.h[2], m.n[3] - m.n[2]);
    var (a, b, c) := (m.n[2] - m.n[1], m.n[3] - m.n[2], m.n[3] - m.n[1]);
    NonNegative(a + 1.0, m.h[3] - m.h[2], b);
    NonNegative(b - 1.0, m.h[2] - m.h[1], a);
    NonNegative(1.0, Pull(a + 1.0, m.h[3] - m.h[2], b) + Pull(b - 1.0, m.h[2] - m.h[1], a), c);
  }

  lemma NonNegative(k: real, x: real, d: real)
    requires k >= 0.0 && x >= 0.0 && d > 0.0
    ensures Pull(k, x, d) >= 0.0
  {
    assert k * x >= 0.0;
  }

  lemma AdjustClimbs(q: real, m: Markers, i: nat, xs: seq<real>)
    requires Faithful(q, m, xs) && Climbs(m) && 1 <= i <= 3
    ensures Climbs(Adjust(m, i)) && m.h[2] <= Adjust(m, i).h[2]
  {
    if Moves(m, i) && i == 2 {
      UpwardHeight(m);
    }
  }

  lemma {:induction false} AdjustUpToClimbs(q: real, m: Markers, c: nat, xs: seq<real>)
    requires Faithful(q, m, xs) && Climbs(m) && c <= 3
    ensures Climbs(AdjustUpTo(m, c)) && m.h[2] <= AdjustUpTo(m, c).h[2]
  {
    if c > 0 {
      AdjustUpToClimbs(q, m, c - 1, xs);
      AdjustUpToKeepsFaith(q, m, c - 1, xs);
      AdjustClimbs(q, AdjustUpTo(m, c - 1), c, xs);
    }
  }

  lemma {:induction false} MarkersClimb(q: real, xs: seq<real>)
    requires |xs| >= 5 && Sorted(xs) && 0.0 < q < 1.0
    ensures Climbs(Fed(q, xs).m)
    ensures |xs| > 5 ==> Fed(q, xs[..|xs| - 1]).m.h[2] <= Fed(q, xs).m.h[2]
    decreases |xs|
  {
    var front := xs[..|xs| - 1];
    if |xs| > 5 {
      MarkersClimb(q, front);
      MarkersStayFaithful(q, front);
      var x, m := xs[|xs| - 1], Fed(q, front).m;
      PlaceKeepsFaith(q, m, front, x);
      assert Place(m.h, x) == (m.h[4 := x], 3);
      AdjustUpToClimbs(q, Markers(m.h[4 := x], Shift(m.n, 3), Advance(m.p, q)), 3, front + [x]);
    }
  }

  lemma ExactQuantile(q: real, xs: seq<real>)
    requires 0.0 < q < 1.0 && 1 <= |xs| <= 5 && Sorted(xs)
    ensures 0 <= Rank(q, |xs|) < |xs|
    ensures Threshold(q, Fed(q, xs)) == xs[if |xs| == 5 then 2 else Rank(q, |xs|)]
  {
    RankInRange(q, |xs|);
    SamplesAreKept(q, xs);
    SortOfSorted(xs);
    if |xs| == 5 {
      assert Fed(q, xs).m == FirstMarkers(q, Fed(q, xs).v);
      assert Fed(q, xs).v == xs;
    }
  }

  lemma RankGrows(q: real, n: nat)
    requires 0.0 < q < 1.0
    ensures Rank(q, n) <= Rank(q, n + 1)
    ensures Rank(q, 4) <= 2 <==> q <= 0.75
  {
    assert q * (n + 1) as real == q * n as real + q;
  }

  /** On input that never falls, one more sample never lowers the threshold, except that the
      fifth swaps the exact quantile of four for the median, whatever `q`. */
  lemma RisingInputIff(q: real, xs: seq<real>)
    requires 0.0 < q < 1.0 && |xs| >= 2 && Sorted(xs)
    ensures Threshold(q, Fed(q, xs[..|xs| - 1])) <= Threshold(q, Fed(q, xs))
       <==> |xs| != 5 || q <= 0.75 || xs[2] == xs[3]
  {
    if |xs| > 5 {
      MarkersClimb(q, xs);
    } else {
      var n := |xs| - 1;
      ExactQuantile(q, xs);
      ExactQuantile(q, xs[..n]);
      RankGrows(q, n);
      assert xs[..n][Rank(q, n)] == xs[Rank(q, n)];
    }
  }

  /** Samples 1, 2, 3, 4, 5 at four fifths: the fifth lowers the threshold. */
  lemma FifthSampleLowers()
    ensures var xs := [1.0, 2.0, 3.0, 4.0, 5.0];
      Sorted(xs) && Threshold(0.8, Fed(0.8, xs[..4])) > Threshold(0.8, Fed(0.8, xs))
  {
    var xs := [1.0, 2.0, 3.0, 4.0, 5.0];
    assert Sorted(xs) && xs[2] != xs[3];
    RisingInputIff(0.8, xs);
  }

  lemma {:induction false} RisingInputNeverLowers(q: real, xs: seq<real>, i: nat)
    requires 0.0 < q <= 0.75 && Sorted(xs) && 1 <= i <= |xs|
    ensures Threshold(q, Fed(q, xs[..i])) <= Threshold(q, Fed(q, xs))
    decreases |xs|
  {
    if i < |xs| {
      var front := xs[..|xs| - 1];
      RisingInputNeverLowers(q, front, i);
      RisingInputIff(q, xs);
      assert front[..i] == xs[..i];
    } else {
      assert xs[..i] == xs;
    }
  }

  // ---------------------------------------------------------------- the parabola

  /** The quadratic through (n0, h0), (n, h) and (n1, h1), in Newton's form. */
  ghost function Quadratic(h0: real, h: real, h1: real, n0: real, n: real, n1: real, x: real): real
    requires n0 < n < n1
  {
    h + Newton((h - h0) / (n - n0), (h1 - h) / (n1 - n), n1 - n0, x - n, x - n0)
  }

  /** Its rise from the middle point: the slopes over the two gaps, `c` wide together, and the
      distances from the middle and the lower point. */
  ghost function Newton(m1: real, m2: real, c: real, u: real, w: real): real
    requires c != 0.0
  {
    m1 * u + (m2 - m1) / c * (u * w)
  }

  lemma QuadraticMeetsMarkers(h0: real, h: real, h1: real, n0: real, n: real, n1: real)
    requires n0 < n < n1
    ensures Quadratic(h0, h, h1, n0, n, n1, n0) == h0
    ensures Quadratic(h0, h, h1, n0, n, n1, n) == h
    ensures Quadratic(h0, h, h1, n0, n, n1, n1) == h1
  {
  }

  /** The P2 prediction is that quadratic, one position to the side. */
  lemma ParabolicInterpolates(h0: real, h: real, h1: real, n0: real, n: real, n1: real, s: real)
    requires n0 < n < n1
    ensures Parabolic(h0, h, h1, n0, n, n1, s) == Quadratic(h0, h, h1, n0, n, n1, n + s)
  {
  }
}
