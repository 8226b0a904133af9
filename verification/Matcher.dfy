/** The matrix code of src/patch.rs: it fills, scans, thins out and walks a matrix in place.
    Every method is tied to the alignments of module Alignment. */
module Matcher {
  import opened Wrappers
  import opened Alignment

  ghost function RowView(mat: array2<real>, i: nat, m: nat): (row: seq<real>)
    requires i < mat.Length0 && m <= mat.Length1
    reads mat
    ensures |row| == m && forall j :: 0 <= j < m ==> row[j] == mat[i, j]
  {
    if m == 0 then [] else RowView(mat, i, m - 1) + [mat[i, m - 1]]
  }

  ghost function RowsView(mat: array2<real>, n: nat): (g: Grid)
    requires n <= mat.Length0
    reads mat
    ensures |g| == n && forall i :: 0 <= i < n ==> g[i] == RowView(mat, i, mat.Length1)
  {
    if n == 0 then [] else RowsView(mat, n - 1) + [RowView(mat, n - 1, mat.Length1)]
  }

  ghost function View(mat: array2<real>): (g: Grid)
    reads mat
    ensures Sized(g, mat.Length0, mat.Length1)
    ensures forall i, j :: 0 <= i < mat.Length0 && 0 <= j < mat.Length1 ==> g[i][j] == mat[i, j]
  {
    RowsView(mat, mat.Length0)
  }

  /** The cells of value `top` that a row-major scan meets before reaching (i, j). */
  ghost function WinnersBefore(g: Grid, top: real, i: nat, j: nat): set<Pos> {
    set r: nat, c: nat | r < |g| && c < |g[r]| && (r < i || (r == i && c < j)) && g[r][c] == top :: Pos(r, c)
  }

  ghost function Winners(g: Grid, top: real): set<Pos> {
    WinnersBefore(g, top, |g|, 0)
  }

  /** Row `row` is too far from where the patch is expected to match. */
  predicate TooFar(est: nat, seq2Len: nat, row: nat) {
    Abs((est as real - seq2Len as real / 2.0) - row as real) >= LINE_SLACK
  }

  /** `h` is `g` with the top cells in far rows set to zero. */
  ghost predicate Suppressed(g: Grid, h: Grid, top: real, est: nat, seq2Len: nat) {
    && |h| == |g| && (forall i :: 0 <= i < |g| ==> |h[i]| == |g[i]|)
    && (forall i, j :: 0 <= i < |g| && 0 <= j < |g[i]| ==>
          h[i][j] == if g[i][j] == top && TooFar(est, seq2Len, i) then 0.0 else g[i][j])
  }

  /** The greatest value of `g`, or zero where every value is negative. */
  ghost predicate IsTop(g: Grid, top: real) {
    && top >= 0.0
    && (forall i, j :: 0 <= i < |g| && 0 <= j < |g[i]| ==> g[i][j] <= top)
    && (top == 0.0 || Winners(g, top) != {})
  }

  /** `p` is the first cell, in row-major order, that no other cell exceeds. */
  ghost predicate IsArgMax(g: Grid, p: Pos) {
    && p.row < |g| && p.col < |g[p.row]|
    && (forall i, j :: 0 <= i < |g| && 0 <= j < |g[i]| ==> g[i][j] <= g[p.row][p.col])
    && (forall i, j :: 0 <= i < |g| && 0 <= j < |g[i]| && (i < p.row || (i == p.row && j < p.col)) ==>
          g[i][j] < g[p.row][p.col])
  }

  /** Cell (i, j) follows from its three neighbours. */
  ghost predicate Derived(mat: array2<real>, score: Scorer, s1: seq<Line>, s2: seq<Line>, i: int, j: int)
    reads mat
    requires mat.Length0 == |s1| + 1 && mat.Length1 == |s2| + 1 && 0 <= i <= |s1| && 0 <= j <= |s2|
  {
    mat[i, j] == if i == 0 || j == 0 then 0.0
                 else CellFrom(score, s1[i - 1], s2[j - 1], mat[i - 1, j - 1], mat[i - 1, j], mat[i, j - 1])
  }

  lemma {:induction false} DerivedIsCell(mat: array2<real>, score: Scorer, s1: seq<Line>, s2: seq<Line>, i: nat, j: nat)
    requires mat.Length0 == |s1| + 1 && mat.Length1 == |s2| + 1 && i <= |s1| && j <= |s2|
    requires forall r, c :: 0 <= r <= |s1| && 0 <= c <= |s2| ==> Derived(mat, score, s1, s2, r, c)
    ensures mat[i, j] == Cell(score, s1, s2, i, j)
    decreases i + j
  {
    assert Derived(mat, score, s1, s2, i, j);
    if i > 0 && j > 0 {
      DerivedIsCell(mat, score, s1, s2, i - 1, j - 1);
      DerivedIsCell(mat, score, s1, s2, i - 1, j);
      DerivedIsCell(mat, score, s1, s2, i, j - 1);
    }
  }

  lemma DerivedIsMatrix(mat: array2<real>, score: Scorer, s1: seq<Line>, s2: seq<Line>)
    requires mat.Length0 == |s1| + 1 && mat.Length1 == |s2| + 1
    requires forall r, c :: 0 <= r <= |s1| && 0 <= c <= |s2| ==> Derived(mat, score, s1, s2, r, c)
    ensures IsMatrix(score, s1, s2, View(mat))
  {
    forall i, j | 0 <= i <= |s1| && 0 <= j <= |s2|
      ensures mat[i, j] == Cell(score, s1, s2, i, j)
    {
      DerivedIsCell(mat, score, s1, s2, i, j);
    }
  }

  method BuildMatrix(score: Scorer, s1: seq<Line>, s2: seq<Line>) returns (mat: array2<real>)
    ensures fresh(mat) && IsMatrix(score, s1, s2, View(mat))
  {
    var n, m := |s1|, |s2|;
    mat := new real[n + 1, m + 1]((i, j) => 0.0);
    for i := 1 to n + 1
      invariant forall r, c :: 0 <= r < i && 0 <= c <= m ==> Derived(mat, score, s1, s2, r, c)
      invariant forall r, c :: i <= r <= n && 0 <= c <= m ==> mat[r, c] == 0.0
    {
      for j := 1 to m + 1
        invariant forall r, c :: 0 <= r < i && 0 <= c <= m ==> Derived(mat, score, s1, s2, r, c)
        invariant forall c :: 0 <= c < j ==> Derived(mat, score, s1, s2, i, c)
        invariant forall r, c :: i < r <= n && 0 <= c <= m ==> mat[r, c] == 0.0
      {
        var matchS := mat[i - 1, j - 1] + score(s1[i - 1], s2[j - 1]);
        var delS := mat[i - 1, j] + score(s1[i - 1], GAP_CHAR);
        var insS := mat[i, j - 1] + score(s2[j - 1], GAP_CHAR);
        label Before:
        mat[i, j] := Max(matchS, Max(Max(delS, insS), 0.0));
        forall r, c | 0 <= r <= i && 0 <= c <= m && (r < i || c < j)
          ensures Derived(mat, score, s1, s2, r, c)
        {
          assert old@Before(Derived(mat, score, s1, s2, r, c));
        }
      }
    }
    DerivedIsMatrix(mat, score, s1, s2);
  }

  method MaxScore(mat: array2<real>) returns (acc: real)
    ensures IsTop(View(mat), acc)
  {
    acc := 0.0;
    ghost var g := View(mat);
    ghost var at := Pos(0, 0);
    for i := 0 to mat.Length0
      invariant acc >= 0.0
      invariant forall r, c :: 0 <= r < i && 0 <= c < mat.Length1 ==> g[r][c] <= acc
      invariant acc == 0.0 || at in Winners(g, acc)
    {
      for j := 0 to mat.Length1
        invariant acc >= 0.0
        invariant forall r, c :: 0 <= r < i && 0 <= c < mat.Length1 ==> g[r][c] <= acc
        invariant forall c :: 0 <= c < j ==> g[i][c] <= acc
        invariant acc == 0.0 || at in Winners(g, acc)
      {
        if acc < mat[i, j] {
          at := Pos(i, j);
        }
        acc := Max(acc, mat[i, j]);
      }
    }
  }

  /** Cell (r, c) comes before `p` in row-major order. */
  predicate Earlier(r: int, c: int, p: Pos) { r < p.row || (r == p.row && c < p.col) }

  method ArgMax(mat: array2<real>) returns (p: Pos)
    requires mat.Length0 > 0 && mat.Length1 > 0
    ensures IsArgMax(View(mat), p)
  {
    p := Pos(0, 0);
    for i := 0 to mat.Length0
      invariant p.row < mat.Length0 && p.col < mat.Length1
      invariant p == Pos(0, 0) || p.row < i
      invariant forall r, c :: 0 <= r < i && 0 <= c < mat.Length1 ==> mat[r, c] <= mat[p.row, p.col]
      invariant forall r, c :: 0 <= r < mat.Length0 && 0 <= c < mat.Length1 && Earlier(r, c, p) ==>
                  mat[r, c] < mat[p.row, p.col]
    {
      for j := 0 to mat.Length1
        invariant p.row < mat.Length0 && p.col < mat.Length1
        invariant p == Pos(0, 0) || p.row < i || (p.row == i && p.col < j)
        invariant forall r, c :: 0 <= r < i && 0 <= c < mat.Length1 ==> mat[r, c] <= mat[p.row, p.col]
        invariant forall c :: 0 <= c < j ==> mat[i, c] <= mat[p.row, p.col]
        invariant forall r, c :: 0 <= r < mat.Length0 && 0 <= c < mat.Length1 && Earlier(r, c, p) ==>
                    mat[r, c] < mat[p.row, p.col]
      {
        if mat[i, j] > mat[p.row, p.col] {
          p := Pos(i, j);
        }
      }
    }
  }

  function Reversed(path: seq<Pair>): (r: seq<Pair>)
    ensures |r| == |path|
  {
    if path == [] then [] else [path[|path| - 1]] + Reversed(path[..|path| - 1])
  }

  method Reverse(path: seq<Pair>) returns (r: seq<Pair>)
    ensures r == Reversed(path)
  {
    r := [];
    var k := |path|;
    assert path[..k] == path;
    while k > 0
      invariant 0 <= k <= |path|
      invariant Reversed(path) == r + Reversed(path[..k])
    {
      assert path[..k][..k - 1] == path[..k - 1];
      k := k - 1;
      r := r + [path[k]];
    }
  }

  lemma TraceStep(score: Scorer, s1: seq<Line>, s2: seq<Line>, g: Grid, p: Pos, path: seq<Pair>)
    requires ZeroBorder(s1, s2, g) && InGrid(s1, s2, p) && g[p.row][p.col] != 0.0
    ensures Inside(s1, s2, p)
    ensures var c := Choice(score, s1, s2, g, p);
            && InGrid(s1, s2, Before(p, c)) && Before(p, c).row + Before(p, c).col < p.row + p.col
            && Trace(score, s1, s2, g, p) + Reversed(path)
            == Trace(score, s1, s2, g, Before(p, c)) + Reversed(path + [c])
  {
    var c := Choice(score, s1, s2, g, p);
    assert (path + [c])[..|path|] == path;
    assert Reversed(path + [c]) == [c] + Reversed(path);
  }

  /** The pair the traceback takes at a cell that is not zero. */
  function PickPair(mat: array2<real>, score: Scorer, s1: seq<Line>, s2: seq<Line>, i: nat, j: nat): (c: Pair)
    requires ZeroBorder(s1, s2, View(mat)) && Inside(s1, s2, Pos(i, j))
    reads mat
    ensures c == Choice(score, s1, s2, View(mat), Pos(i, j))
  {
    var matchS := mat[i - 1, j - 1] + score(s1[i - 1], s2[j - 1]);
    var delS := mat[i - 1, j] + score(s1[i - 1], GAP_CHAR);
    var insS := mat[i, j - 1] + score(s2[j - 1], GAP_CHAR);
    var best := Max(matchS, Max(delS, insS));
    if matchS == best then (Some(i - 1), Some(j - 1))
    else if delS == best then (Some(i - 1), None)
    else (None, Some(j - 1))
  }

  /** `p` is the greatest cell, and `r` the trace back from it. */
  ghost predicate TracedFrom(score: Scorer, s1: seq<Line>, s2: seq<Line>, g: Grid, p: Pos, r: seq<Pair>) {
    ZeroBorder(s1, s2, g) && IsArgMax(g, p) && InGrid(s1, s2, p) && r == Trace(score, s1, s2, g, p)
  }

  /** The traceback, from the greatest cell of any matrix whose border is zero.  It never
      leaves the matrix and it stops. */
  method Backtrack(mat: array2<real>, score: Scorer, s1: seq<Line>, s2: seq<Line>) returns (r: seq<Pair>)
    requires ZeroBorder(s1, s2, View(mat))
    ensures exists p :: TracedFrom(score, s1, s2, View(mat), p, r)
  {
    assert |View(mat)[0]| == mat.Length1;
    var p := ArgMax(mat);
    var path := WalkBack(mat, score, s1, s2, p);
    r := Reverse(path);
    assert TracedFrom(score, s1, s2, View(mat), p, r);
  }

  /** The pairs in the order the loop pushes them. */
  method WalkBack(mat: array2<real>, score: Scorer, s1: seq<Line>, s2: seq<Line>, p: Pos) returns (path: seq<Pair>)
    requires ZeroBorder(s1, s2, View(mat)) && InGrid(s1, s2, p)
    ensures Reversed(path) == Trace(score, s1, s2, View(mat), p)
  {
    ghost var g := View(mat);
    var at := p;
    path := [];
    while mat[at.row, at.col] != 0.0
      invariant InGrid(s1, s2, at)
      invariant Trace(score, s1, s2, g, p) == Trace(score, s1, s2, g, at) + Reversed(path)
      decreases at.row + at.col
    {
      assert g[at.row][at.col] == mat[at.row, at.col];
      TraceStep(score, s1, s2, g, at, path);
      var c := PickPair(mat, score, s1, s2, at.row, at.col);
      path := path + [c];
      at := Before(at, c);
    }
  }

  lemma WinnersAdvance(g: Grid, top: real, i: nat, j: nat)
    requires i < |g| && j < |g[i]|
    ensures |WinnersBefore(g, top, i, j + 1)| == |WinnersBefore(g, top, i, j)| + if g[i][j] == top then 1 else 0
  {
    var (before, after) := (WinnersBefore(g, top, i, j), WinnersBefore(g, top, i, j + 1));
    forall q: Pos ensures q in after <==> q in before || (q == Pos(i, j) && g[i][j] == top) {
      assert q == Pos(q.row, q.col);
    }
    assert after == before + if g[i][j] == top then {Pos(i, j)} else {};
  }

  lemma WinnersNextRow(g: Grid, top: real, i: nat)
    requires i < |g|
    ensures WinnersBefore(g, top, i, |g[i]|) == WinnersBefore(g, top, i + 1, 0)
  {
  }

  method CountWinners(mat: array2<real>, top: real) returns (n: nat)
    ensures n == |Winners(View(mat), top)|
  {
    n := 0;
    ghost var g := View(mat);
    for i := 0 to mat.Length0
      invariant n == |WinnersBefore(g, top, i, 0)|
    {
      for j := 0 to mat.Length1
        invariant n == |WinnersBefore(g, top, i, j)|
      {
        WinnersAdvance(g, top, i, j);
        if mat[i, j] == top {
          n := n + 1;
        }
      }
      WinnersNextRow(g, top, i);
    }
  }

  method SuppressFar(mat: array2<real>, top: real, est: nat, seq2Len: nat)
    modifies mat
    ensures Suppressed(old(View(mat)), View(mat), top, est, seq2Len)
  {
    for i := 0 to mat.Length0
      invariant forall r, c :: 0 <= r < i && 0 <= c < mat.Length1 ==>
                  mat[r, c] == if old(mat[r, c]) == top && TooFar(est, seq2Len, r) then 0.0 else old(mat[r, c])
      invariant forall r, c :: i <= r < mat.Length0 && 0 <= c < mat.Length1 ==> mat[r, c] == old(mat[r, c])
    {
      for j := 0 to mat.Length1
        invariant forall r, c :: 0 <= r < i && 0 <= c < mat.Length1 ==>
                    mat[r, c] == if old(mat[r, c]) == top && TooFar(est, seq2Len, r) then 0.0 else old(mat[r, c])
        invariant forall c :: 0 <= c < j ==>
                    mat[i, c] == if old(mat[i, c]) == top && TooFar(est, seq2Len, i) then 0.0 else old(mat[i, c])
        invariant forall c :: j <= c < mat.Length1 ==> mat[i, c] == old(mat[i, c])
        invariant forall r, c :: i < r < mat.Length0 && 0 <= c < mat.Length1 ==> mat[r, c] == old(mat[r, c])
      {
        if mat[i, j] == top {
          var diff := (est as real - seq2Len as real / 2.0) - i as real;
          if Abs(diff) >= LINE_SLACK {
            mat[i, j] := 0.0;
          }
        }
      }
    }
  }

  method BreakTies(mat: array2<real>, top: real, est: Option<nat>, seq2Len: nat) returns (r: Result<(), AlignError>)
    modifies mat
    ensures |Winners(old(View(mat)), top)| == 1 || top < MIN_SCORE || est.None? ==> View(mat) == old(View(mat))
    ensures |Winners(old(View(mat)), top)| != 1 && top >= MIN_SCORE && est.Some? ==>
              Suppressed(old(View(mat)), View(mat), top, est.value, seq2Len)
    ensures r == if |Winners(old(View(mat)), top)| == 1 then Ok(())
                 else if top < MIN_SCORE then Err(NoGoodMatch)
                 else if |Winners(View(mat), top)| == 1 then Ok(())
                 else Err(AmbiguousMatch)
  {
    var winners := CountWinners(mat, top);
    if winners == 1 {
      return Ok(());
    }
    if top < MIN_SCORE {
      return Err(NoGoodMatch);
    }
    if est.Some? {
      SuppressFar(mat, top, est.value, seq2Len);
    }
    winners := CountWinners(mat, top);
    if winners != 1 {
      return Err(AmbiguousMatch);
    }
    return Ok(());
  }

  // ---------------------------------------------------------------- sw_align

  /** What tie-breaking does to the matrix. */
  ghost predicate TieBroken(g: Grid, h: Grid, top: real, est: Option<nat>, seq2Len: nat) {
    if |Winners(g, top)| == 1 || est.None? then h == g else Suppressed(g, h, top, est.value, seq2Len)
  }

  /** `w` is the one cell that the tie-breaker left with the top score of `g`; `h` is the
      matrix it left. */
  ghost predicate Survives(g: Grid, h: Grid, top: real, est: Option<nat>, seq2Len: nat, w: Pos) {
    IsTop(g, top) && top >= MIN_SCORE && TieBroken(g, h, top, est, seq2Len) && Winners(h, top) == {w}
  }

  lemma SingletonOf<T>(s: set<T>, x: T)
    requires |s| == 1 && x in s
    ensures s == {x}
  {
    assert |s - {x}| == 0;
  }

  /** Exactly one cell kept the top score, so it is the one the traceback starts from. */
  lemma SurvivorIsArgMax(g: Grid, h: Grid, top: real, est: Option<nat>, seq2Len: nat, w: Pos)
    requires IsTop(g, top) && top >= MIN_SCORE && TieBroken(g, h, top, est, seq2Len)
    requires |Winners(h, top)| == 1 && IsArgMax(h, w)
    ensures Survives(g, h, top, est, seq2Len, w)
  {
    var v :| v in Winners(h, top);
    assert h[v.row][v.col] == top;
    assert h[w.row][w.col] == top;
    SingletonOf(Winners(h, top), w);
  }

  lemma TieBrokenBorder(s1: seq<Line>, s2: seq<Line>, g: Grid, h: Grid, top: real, est: Option<nat>)
    requires ZeroBorder(s1, s2, g) && TieBroken(g, h, top, est, |s2|)
    ensures ZeroBorder(s1, s2, h)
  {
  }

  /** The whole matcher: `r` comes of the matrix `g`, its top score, the matrix `h` left after
      tie-breaking, and the surviving cell `w`. */
  ghost predicate MatchedBy(score: Scorer, s1: seq<Line>, s2: seq<Line>, est: Option<nat>,
                            r: Result<seq<Pair>, AlignError>, g: Grid, h: Grid, top: real, w: Pos) {
    && IsMatrix(score, s1, s2, g) && IsTop(g, top)
    && if top < MIN_SCORE then r == Err(NoGoodMatch) else
         && TieBroken(g, h, top, est, |s2|) && ZeroBorder(s1, s2, h)
         && if |Winners(h, top)| != 1 then r == Err(AmbiguousMatch)
            else Winners(h, top) == {w} && InGrid(s1, s2, w) && r == Ok(Trace(score, s1, s2, h, w))
  }

  ghost predicate Matched(score: Scorer, s1: seq<Line>, s2: seq<Line>, est: Option<nat>,
                          r: Result<seq<Pair>, AlignError>) {
    exists g, h, top, w :: MatchedBy(score, s1, s2, est, r, g, h, top, w)
  }

  method SwAlign(score: Scorer, s1: seq<Line>, s2: seq<Line>, est: Option<nat>)
    returns (r: Result<seq<Pair>, AlignError>)
    ensures Matched(score, s1, s2, est, r)
  {
    var mat := BuildMatrix(score, s1, s2);
    ghost var g := View(mat);
    var top := MaxScore(mat);
    if top < MIN_SCORE {
      r := Err(NoGoodMatch);
      assert MatchedBy(score, s1, s2, est, r, g, g, top, Pos(0, 0));
      return;
    }
    var broken := BreakTies(mat, top, est, |s2|);
    ghost var h := View(mat);
    assert TieBroken(g, h, top, est, |s2|);
    TieBrokenBorder(s1, s2, g, h, top, est);
    if broken.Err? {
      r := Err(broken.error);
      assert MatchedBy(score, s1, s2, est, r, g, h, top, Pos(0, 0));
      return;
    }
    var path := Backtrack(mat, score, s1, s2);
    ghost var w :| TracedFrom(score, s1, s2, h, w, path);
    SurvivorIsArgMax(g, h, top, est, |s2|, w);
    r := Ok(path);
    assert MatchedBy(score, s1, s2, est, r, g, h, top, w);
  }
}
