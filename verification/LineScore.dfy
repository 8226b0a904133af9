/** The line score of the matcher (src/patch.rs:36-123).  Square roots are a parameter `root`. */
module LineScore {
  import opened Wrappers
  import opened Alignment

  type Root = nat -> real

  ghost predicate IsRoot(root: Root) {
    forall k :: root(k) >= 0.0 && root(k) * root(k) == k as real
  }

  const SUB_WEIGHT: real := 1.5
  const MAX_DISTANCE: nat := 5
  const MISMATCH: real := -0.5

  function Min(x: nat, y: nat): nat { if x < y then x else y }

  function BitLength(n: nat): nat { if n == 0 then 0 else 1 + BitLength(n / 2) }

  function BitLengthSqrt(root: Root, len: nat): real {
    if len == 0 then 1.0 else root(BitLength(len))
  }

  // ---------------------------------------------------------------- characters and tails

  predicate Digit(c: char) { '0' <= c <= '9' }

  function Lower(c: char): char { if 'A' <= c <= 'Z' then c + 32 as char else c }

  function CharScore(a: char, b: char): real {
    if a == b then 0.0
    else if (Digit(a) && Digit(b)) || Lower(a) == Lower(b) then SUB_WEIGHT / 10.0
    else SUB_WEIGHT
  }

  function CommonPrefix(a: Line, b: Line): (n: nat)
    ensures n <= |a| && n <= |b| && a[..n] == b[..n]
    ensures n < |a| && n < |b| ==> a[n] != b[n]
  {
    if a == [] || b == [] || a[0] != b[0] then 0 else 1 + CommonPrefix(a[1..], b[1..])
  }

  /** The cell (i, j) of the distance table. */
  function Dist(a: Line, b: Line, i: nat, j: nat): real
    requires i <= |a| && j <= |b|
    decreases i + j
  {
    if i == 0 then j as real
    else if j == 0 then i as real
    else
      Max(Dist(a, b, i - 1, j - 1) + CharScore(a[i - 1], b[j - 1]),
          Max(Dist(a, b, i - 1, j) + 1.0, Dist(a, b, i, j - 1) + 1.0))
  }

  /** Row `i` ends the table early: none of its cells is below the cutoff. */
  predicate EndsEarly(a: Line, b: Line, i: nat, cutoff: nat)
    requires i <= |a|
  {
    forall j :: 1 <= j <= |b| ==> Dist(a, b, i, j) >= cutoff as real
  }

  function Factor(dist: real): real {
    (1.0 - dist / MAX_DISTANCE as real) * (1.0 - dist / MAX_DISTANCE as real)
  }

  function Rate(root: Root, len: nat, dist: real): real {
    BitLengthSqrt(root, len) * Factor(dist)
  }

  /** The score of the tails left after the common prefix. */
  function TailScore(root: Root, a: Line, b: Line, cutoff: nat): real {
    if exists i :: 1 <= i <= |a| && EndsEarly(a, b, i, cutoff) then MISMATCH
    else Rate(root, Min(|a|, |b|), Dist(a, b, |a|, |b|))
  }

  // ---------------------------------------------------------------- the score

  /** A pair that is scored before the tails are looked at. */
  function Special(root: Root, a: Line, b: Line): Option<real> {
    if a == b then Some(if a == [] then 1.0 else BitLengthSqrt(root, |a|))
    else if (a == NEW_SENTINEL && b == GAP_CHAR) || (b == NEW_SENTINEL && a == GAP_CHAR) then Some(0.01)
    else if (a == [] && b == GAP_CHAR) || (b == [] && a == GAP_CHAR) then Some(-0.01)
    else if |a| > |b| + Cutoff(a, b) || |b| > |a| + Cutoff(a, b) then Some(MISMATCH)
    else None
  }

  function Cutoff(a: Line, b: Line): nat { Min(Min(|a|, |b|), MAX_DISTANCE) }

  function Score(root: Root, a: Line, b: Line): real {
    var s := Special(root, a, b);
    if s.Some? then s.value else Compared(root, a, b, CommonPrefix(a, b))
  }

  function Compared(root: Root, a: Line, b: Line, p: nat): real
    requires p <= |a| && p <= |b|
  {
    TailScore(root, a[p..], b[p..], Cutoff(a, b))
  }

  function Scored(root: Root): Scorer { (a, b) => Score(root, a, b) }

  method CountCommon(a: Line, b: Line) returns (n: nat)
    ensures n == CommonPrefix(a, b)
  {
    n := 0;
    while n < |a| && n < |b| && a[n] == b[n]
      invariant n <= |a| && n <= |b|
      invariant CommonPrefix(a, b) == n + CommonPrefix(a[n..], b[n..])
    {
      assert a[n..][1..] == a[n + 1..] && b[n..][1..] == b[n + 1..];
      n := n + 1;
    }
  }

  /** The rows below `i` hold the table, and so does the first column. */
  ghost predicate Filled(dist: array2<real>, a: Line, b: Line, i: int)
    requires dist.Length0 == |a| + 1 && dist.Length1 == |b| + 1 && i <= |a| + 1
    reads dist
  {
    && (forall k :: 0 <= k <= |a| ==> dist[k, 0] == k as real)
    && (forall r, c :: 0 <= r < i && 0 <= c <= |b| ==> dist[r, c] == Dist(a, b, r, c))
  }

  method Borders(a: Line, b: Line) returns (dist: array2<real>)
    ensures fresh(dist) && dist.Length0 == |a| + 1 && dist.Length1 == |b| + 1 && Filled(dist, a, b, 1)
  {
    var n, m := |a|, |b|;
    dist := new real[n + 1, m + 1]((i, j) => 0.0);
    for i := 1 to n + 1
      invariant dist[0, 0] == 0.0 && forall k :: 0 <= k < i ==> dist[k, 0] == k as real
    {
      dist[i, 0] := i as real;
    }
    for j := 1 to m + 1
      invariant forall k :: 0 <= k <= n ==> dist[k, 0] == k as real
      invariant forall k :: 0 <= k < j ==> dist[0, k] == k as real
    {
      dist[0, j] := j as real;
    }
  }

  ghost predicate RowTo(dist: array2<real>, a: Line, b: Line, i: nat, j: int)
    requires dist.Length0 == |a| + 1 && dist.Length1 == |b| + 1 && i <= |a| && j <= |b| + 1
    reads dist
  {
    forall c :: 0 <= c < j ==> dist[i, c] == Dist(a, b, i, c)
  }

  ghost predicate EarlyTo(a: Line, b: Line, i: nat, cutoff: nat, j: int)
    requires i <= |a| && j <= |b| + 1
  {
    forall c :: 1 <= c < j ==> Dist(a, b, i, c) >= cutoff as real
  }

  method FillRow(dist: array2<real>, a: Line, b: Line, i: nat, cutoff: nat) returns (early: bool)
    requires dist.Length0 == |a| + 1 && dist.Length1 == |b| + 1 && 1 <= i <= |a| && Filled(dist, a, b, i)
    modifies dist
    ensures Filled(dist, a, b, i + 1) && (early <==> EndsEarly(a, b, i, cutoff))
  {
    early := true;
    for j := 1 to |b| + 1
      invariant Filled(dist, a, b, i) && RowTo(dist, a, b, i, j)
      invariant early <==> EarlyTo(a, b, i, cutoff, j)
    {
      var best := FillCell(dist, a, b, i, j);
      if best < cutoff as real {
        early := false;
      }
      assert EarlyTo(a, b, i, cutoff, j + 1) <==> EarlyTo(a, b, i, cutoff, j) && best >= cutoff as real;
    }
  }

  method FillCell(dist: array2<real>, a: Line, b: Line, i: nat, j: nat) returns (best: real)
    requires dist.Length0 == |a| + 1 && dist.Length1 == |b| + 1 && 1 <= i <= |a| && 1 <= j <= |b|
    requires Filled(dist, a, b, i) && RowTo(dist, a, b, i, j)
    modifies dist
    ensures Filled(dist, a, b, i) && RowTo(dist, a, b, i, j + 1) && best == Dist(a, b, i, j)
  {
    var sub := dist[i - 1, j - 1] + CharScore(a[i - 1], b[j - 1]);
    var del := dist[i - 1, j] + 1.0;
    var ins := dist[i, j - 1] + 1.0;
    best := Max(sub, Max(del, ins));
    dist[i, j] := best;
  }

  /** The distance table, filled row by row; a row without a cell below the cutoff ends it. */
  method ScoreTails(root: Root, a: Line, b: Line, cutoff: nat) returns (s: real)
    ensures s == TailScore(root, a, b, cutoff)
  {
    var dist := Borders(a, b);
    for i := 1 to |a| + 1
      invariant Filled(dist, a, b, i)
      invariant forall k :: 1 <= k < i ==> !EndsEarly(a, b, k, cutoff)
    {
      var early := FillRow(dist, a, b, i, cutoff);
      if early {
        return MISMATCH;
      }
    }
    s := Rate(root, Min(|a|, |b|), dist[|a|, |b|]);
  }

  method ScoreLines(root: Root, a: Line, b: Line) returns (s: real)
    ensures s == Score(root, a, b)
  {
    if a == b {
      return if a == [] then 1.0 else BitLengthSqrt(root, |a|);
    }
    if (a == NEW_SENTINEL && b == GAP_CHAR) || (b == NEW_SENTINEL && a == GAP_CHAR) {
      return 0.01;
    }
    if (a == [] && b == GAP_CHAR) || (b == [] && a == GAP_CHAR) {
      return -0.01;
    }
    var cutoff := Min(Min(|a|, |b|), MAX_DISTANCE);
    if (if |a| > |b| then |a| - |b| else |b| - |a|) > cutoff {
      return MISMATCH;
    }
    var p := CountCommon(a, b);
    s := ScoreTails(root, a[p..], b[p..], cutoff);
  }

  // ---------------------------------------------------------------- what it measures

  /** The table takes the greatest of its three candidates, so the "distance" of two tails is
      the sum of their lengths, whatever their characters. */
  lemma {:induction false} DistanceIsLengths(a: Line, b: Line, i: nat, j: nat)
    requires i <= |a| && j <= |b|
    ensures Dist(a, b, i, j) == (i + j) as real
    decreases i + j
  {
    if i > 0 && j > 0 {
      DistanceIsLengths(a, b, i - 1, j - 1);
      DistanceIsLengths(a, b, i - 1, j);
      DistanceIsLengths(a, b, i, j - 1);
    }
  }

  /** The score of the tails in terms of their lengths alone. */
  function LengthScore(root: Root, n: nat, m: nat, cutoff: nat): real {
    if n > 0 && (m == 0 || n + 1 >= cutoff) then MISMATCH
    else Rate(root, Min(n, m), (n + m) as real)
  }

  lemma EarlyIffLong(a: Line, b: Line, cutoff: nat)
    ensures (exists i :: 1 <= i <= |a| && EndsEarly(a, b, i, cutoff)) <==>
            |a| > 0 && (|b| == 0 || |a| + 1 >= cutoff)
  {
    forall i | 1 <= i <= |a| ensures EndsEarly(a, b, i, cutoff) <==> |b| == 0 || i + 1 >= cutoff {
      forall j | 1 <= j <= |b| ensures Dist(a, b, i, j) == (i + j) as real {
        DistanceIsLengths(a, b, i, j);
      }
      if |b| > 0 {
        assert Dist(a, b, i, 1) == (i + 1) as real;
      }
    }
    if |a| > 0 {
      assert EndsEarly(a, b, |a|, cutoff) <==> |b| == 0 || |a| + 1 >= cutoff;
    }
  }

  lemma TailsByLength(root: Root, a: Line, b: Line, cutoff: nat)
    ensures TailScore(root, a, b, cutoff) == LengthScore(root, |a|, |b|, cutoff)
  {
    EarlyIffLong(a, b, cutoff);
    DistanceIsLengths(a, b, |a|, |b|);
  }

  lemma ComparedByLength(root: Root, a: Line, b: Line, p: nat)
    requires p <= |a| && p <= |b|
    ensures Compared(root, a, b, p) == LengthScore(root, |a| - p, |b| - p, Cutoff(a, b))
  {
    TailsByLength(root, a[p..], b[p..], Cutoff(a, b));
    assert |a[p..]| == |a| - p && |b[p..]| == |b| - p;
  }

  /** What is left of a pair after its common prefix. */
  function Left(a: Line, b: Line): (l: (nat, nat)) {
    (|a| - CommonPrefix(a, b), |b| - CommonPrefix(a, b))
  }

  /** Mismatched digits and letters of different case are to cost less than other mismatches;
      no mismatch costs anything: only the lengths of the tails matter. */
  lemma ScoreIsLengthScore(root: Root, a: Line, b: Line)
    requires Special(root, a, b).None?
    ensures Score(root, a, b) == LengthScore(root, Left(a, b).0, Left(a, b).1, Cutoff(a, b))
  {
    ComparedByLength(root, a, b, CommonPrefix(a, b));
  }

  // ---------------------------------------------------------------- what it ranks

  lemma Positive(x: real, y: real)
    requires x > 0.0 && y > 0.0
    ensures x * y > 0.0
  {
  }

  lemma Squares(x: real, y: real)
    requires x >= 0.0 && y >= 0.0
    ensures x * x <= y * y <==> x <= y
  {
    if x > y {
      Positive(x - y, x + y);
      assert (x - y) * (x + y) == x * x - y * y;
    } else {
      assert x * x <= x * y <= y * y;
    }
  }

  lemma RootGrows(root: Root, j: nat, k: nat)
    requires IsRoot(root) && j <= k
    ensures 0.0 <= root(j) <= root(k)
  {
    Squares(root(j), root(k));
  }

  lemma RootValue(root: Root, k: nat, r: real)
    requires IsRoot(root) && r >= 0.0 && r * r == k as real
    ensures root(k) == r
  {
    Squares(root(k), r);
    Squares(r, root(k));
  }

  lemma {:induction false} BitLengthGrows(j: nat, k: nat)
    requires j <= k
    ensures BitLength(j) <= BitLength(k)
  {
    if j > 0 {
      BitLengthGrows(j / 2, k / 2);
    }
  }

  lemma FactorBound(d: real)
    ensures 1.0 <= d <= 9.0 ==> 0.0 <= Factor(d) <= 0.64
    ensures 0.0 <= d <= 10.0 ==> 0.0 <= Factor(d) <= 1.0
    ensures d == 11.0 ==> Factor(d) == 1.44
  {
    var x := 1.0 - d / 5.0;
    if 1.0 <= d <= 9.0 {
      SquareBound(x, 0.8);
    }
    if 0.0 <= d <= 10.0 {
      SquareBound(x, 1.0);
    }
  }

  lemma SquareBound(x: real, y: real)
    requires -y <= x <= y
    ensures 0.0 <= x * x <= y * y
  {
    if x >= 0.0 {
      Squares(x, y);
    } else {
      Squares(-x, y);
    }
  }

  lemma RootTwo(root: Root)
    requires IsRoot(root)
    ensures root(1) == 1.0 && 1.0 <= root(2) < 1.5 && root(4) == 2.0
    ensures 2.0 < root(2) * 1.44 < root(5)
  {
    RootValue(root, 1, 1.0);
    RootValue(root, 4, 2.0);
    RootGrows(root, 1, 2);
    Squares(1.5, root(2));
    var x := root(2) * 1.44;
    assert x * x == 2.0 * 1.44 * 1.44;
    Squares(x, 2.0);
    Squares(root(5), x);
  }

  lemma RateOf(root: Root, len: nat, d: nat)
    requires IsRoot(root) && 1 <= d <= 10 && (d <= 9 || len == 3) && len <= 3
    ensures Rate(root, len, d as real) <= if len <= 2 && d <= 9 then 1.0 else root(2)
  {
    RootTwo(root);
    FactorBound(d as real);
    var x := BitLengthSqrt(root, len);
  }

  /** Three characters against eight, after the common prefix: the one pair of tails whose rate
      passes the minimum, the "distance" of eleven being as far from five as to square to more
      than one. */
  predicate Overrated(root: Root, a: Line, b: Line) {
    Special(root, a, b).None? && Left(a, b) == (3, 8) && Cutoff(a, b) == MAX_DISTANCE
  }

  lemma LengthScoreBound(root: Root, n: nat, m: nat, cutoff: nat)
    requires IsRoot(root) && cutoff <= 5 && 0 < n + m && m <= n + 5
    ensures n == 3 && m == 8 && cutoff == 5 ==> LengthScore(root, n, m, cutoff) == root(2) * 1.44
    ensures !(n == 3 && m == 8 && cutoff == 5) ==>
      LengthScore(root, n, m, cutoff) <= if n == 3 && cutoff == 5 then root(2) else 1.0
  {
    RootTwo(root);
    if n > 0 && (m == 0 || n + 1 >= cutoff) {
    } else if n == 3 && m == 8 {
      FactorBound(11.0);
    } else {
      RateOf(root, Min(n, m), n + m);
    }
  }

  /** Two different lines count as a good match on their own exactly when three characters are
      left of the first and eight of the second, out of at least five. */
  lemma GoodMatchIff(root: Root, a: Line, b: Line)
    requires IsRoot(root) && a != b
    ensures Score(root, a, b) >= MIN_SCORE <==> Overrated(root, a, b)
  {
    if Special(root, a, b).None? {
      var (n, m) := Left(a, b);
      ScoreIsLengthScore(root, a, b);
      LengthScoreBound(root, n, m, Cutoff(a, b));
      RootTwo(root);
    }
  }

  lemma OwnScore(root: Root, a: Line)
    requires IsRoot(root)
    ensures Score(root, a, a) == if a == [] then 1.0 else root(BitLength(|a|))
    ensures Score(root, a, a) >= 1.0
    ensures |a| >= 5 ==> Score(root, a, a) >= root(2)
    ensures 5 <= |a| <= 15 ==> Score(root, a, a) <= 2.0
    ensures |a| > 15 ==> Score(root, a, a) >= root(5)
  {
    RootTwo(root);
    if a != [] {
      BitLengthGrows(1, |a|);
      assert BitLength(1) == 1 && BitLength(5) == 3 && BitLength(15) == 4 && BitLength(16) == 5;
      RootGrows(root, 1, BitLength(|a|));
      if |a| >= 5 {
        BitLengthGrows(5, |a|);
        RootGrows(root, 2, BitLength(|a|));
      }
      if |a| <= 15 {
        BitLengthGrows(|a|, 15);
        RootGrows(root, BitLength(|a|), 4);
      } else {
        BitLengthGrows(16, |a|);
        RootGrows(root, 5, BitLength(|a|));
      }
    }
  }

  /** A line scores best against itself, except that up to fifteen characters of it are beaten
      by such an overrated pair. */
  lemma IdenticalIsBestIff(root: Root, a: Line, b: Line)
    requires IsRoot(root) && a != b
    ensures Score(root, a, b) <= Score(root, a, a) <==> !(Overrated(root, a, b) && |a| <= 15)
  {
    OwnScore(root, a);
    if Special(root, a, b).None? {
      var (n, m) := Left(a, b);
      ScoreIsLengthScore(root, a, b);
      LengthScoreBound(root, n, m, Cutoff(a, b));
      RootTwo(root);
    }
  }

  lemma WitnessPair(root: Root, a: Line, b: Line)
    requires a == "aaabc" && b == "aaxxxxxxxx"
    ensures Overrated(root, a, b)
  {
    assert a[1..] == "aabc" && b[1..] == "axxxxxxxx" && a[1..][1..] == "abc" && b[1..][1..] == "xxxxxxxx";
    assert CommonPrefix(a[1..][1..], b[1..][1..]) == 0;
    assert CommonPrefix(a[1..], b[1..]) == 1;
    assert CommonPrefix(a, b) == 2;
    assert |GAP_CHAR| == 12 && |NEW_SENTINEL| == 7 && |a| == 5 && |b| == 10;
  }

  /** A line of five characters matches a different one better than itself. */
  lemma DifferentLineWins(root: Root)
    requires IsRoot(root)
    ensures Score(root, "aaabc", "aaxxxxxxxx") > 2.0 >= Score(root, "aaabc", "aaabc")
  {
    var a: Line := "aaabc";
    var b: Line := "aaxxxxxxxx";
    WitnessPair(root, a, b);
    OverratedScore(root, a, b);
    OwnScore(root, a);
  }

  lemma OverratedScore(root: Root, a: Line, b: Line)
    requires IsRoot(root) && Overrated(root, a, b)
    ensures Score(root, a, b) == root(2) * 1.44 > 2.0
  {
    ScoreIsLengthScore(root, a, b);
    LengthScoreBound(root, 3, 8, 5);
    RootTwo(root);
  }

  // ---------------------------------------------------------------- the numbers

  function PowerOfTwo(k: nat): nat { if k == 0 then 1 else 2 * PowerOfTwo(k - 1) }

  /** The bit length is the number of binary digits. */
  lemma {:induction false} BitLengthIs(n: nat)
    requires n > 0
    ensures BitLength(n) > 0 && PowerOfTwo(BitLength(n) - 1) <= n < PowerOfTwo(BitLength(n))
  {
    var half := n / 2;
    assert n == 2 * half || n == 2 * half + 1;
    assert BitLength(n) == 1 + BitLength(half);
    if half > 0 {
      BitLengthIs(half);
      assert PowerOfTwo(BitLength(n)) == 2 * PowerOfTwo(BitLength(half));
    } else {
      assert n == 1 && BitLength(n) == 1 && PowerOfTwo(1) == 2 * PowerOfTwo(0);
    }
  }

  /** What is scored without comparing characters. */
  lemma SpecialScores(root: Root, a: Line, b: Line)
    ensures Score(root, [], []) == 1.0
    ensures a != [] ==> Score(root, a, a) == root(BitLength(|a|))
    ensures Score(root, [], "__GAP_CHAR__") == Score(root, "__GAP_CHAR__", []) == -0.01
    ensures Score(root, "+~NEW~+", "__GAP_CHAR__") == Score(root, "__GAP_CHAR__", "+~NEW~+") == 0.01
    ensures a != b && "__GAP_CHAR__" !in {a, b} && (|a| == 0 || |b| == 0 || |a| > |b| + 5 || |b| > |a| + 5) ==>
      Score(root, a, b) == -0.5
  {
    assert "+~NEW~+"[0] != "__GAP_CHAR__"[0];
  }

  /** The mismatch where a row of the table ends early, else the root of the bit length of the
      shorter tail, times (1 - d / 5) squared for the distance d. */
  ghost function Formula(root: Root, n: nat, m: nat, cutoff: nat): real {
    var d := (n + m) as real;
    if n > 0 && (m == 0 || n + 1 >= cutoff) then -0.5
    else (if n == 0 || m == 0 then 1.0 else root(BitLength(Min(n, m)))) * ((1.0 - d / 5.0) * (1.0 - d / 5.0))
  }

  lemma LengthScoreIs(root: Root, n: nat, m: nat, cutoff: nat)
    ensures LengthScore(root, n, m, cutoff) == Formula(root, n, m, cutoff)
  {
    assert MAX_DISTANCE as real == 5.0;
  }

  /** What a comparison comes to. */
  lemma ComparedScore(root: Root, a: Line, b: Line)
    requires Special(root, a, b).None?
    ensures Score(root, a, b) == Formula(root, Left(a, b).0, Left(a, b).1, Cutoff(a, b))
  {
    ScoreIsLengthScore(root, a, b);
    LengthScoreIs(root, Left(a, b).0, Left(a, b).1, Cutoff(a, b));
  }
}
