/** What the result of sw_align is worth (src/patch.rs:276-297). */
module MatcherTheorems {
  import opened Wrappers
  import opened Alignment
  import opened Matcher

  /** The top score is the greatest total of any alignment anywhere in the matrix. */
  lemma TopScoreIsOptimum(score: Scorer, s1: seq<Line>, s2: seq<Line>, g: Grid, top: real)
    requires IsMatrix(score, s1, s2, g) && IsTop(g, top)
    ensures forall path, start, end :: Aligns(s1, s2, path, start, end) ==> Total(score, s1, s2, path) <= top
    ensures exists path, start, end :: Aligns(s1, s2, path, start, end) && Total(score, s1, s2, path) == top
  {
    forall path, start, end | Aligns(s1, s2, path, start, end)
      ensures Total(score, s1, s2, path) <= top
    {
      NoPathBeatsItsCell(score, s1, s2, path, start, end);
      assert g[end.row][end.col] <= top;
    }
    var p := Pos(0, 0);
    if top != 0.0 {
      p :| p in Winners(g, top);
    } else {
      assert g[0][0] == 0.0;
    }
    var start := TraceAligns(score, s1, s2, g, p);
    TraceScoresItsCell(score, s1, s2, g, p);
  }

  /** "no good matches" is reported exactly when every alignment scores below the minimum. */
  lemma NoGoodMatchIsExact(score: Scorer, s1: seq<Line>, s2: seq<Line>, g: Grid, top: real)
    requires IsMatrix(score, s1, s2, g) && IsTop(g, top)
    ensures top < MIN_SCORE <==>
            forall path, start, end :: Aligns(s1, s2, path, start, end) ==> Total(score, s1, s2, path) < 2.0
  {
    TopScoreIsOptimum(score, s1, s2, g, top);
  }

  /** No alignment of the two sequences is worth more than this one. */
  ghost predicate Optimal(score: Scorer, s1: seq<Line>, s2: seq<Line>, path: seq<Pair>) {
    forall other, start, end :: Aligns(s1, s2, other, start, end) ==>
      Total(score, s1, s2, other) <= Total(score, s1, s2, path)
  }

  /** With a single top cell, or without an estimated line, the returned alignment is optimal. */
  lemma UntiedAlignmentIsOptimal(score: Scorer, s1: seq<Line>, s2: seq<Line>, g: Grid, h: Grid,
                                 top: real, est: Option<nat>, w: Pos)
    requires IsMatrix(score, s1, s2, g) && ZeroBorder(s1, s2, h) && InGrid(s1, s2, w)
    requires Survives(g, h, top, est, |s2|, w)
    requires est.None? || |Winners(g, top)| == 1
    ensures exists start :: Aligns(s1, s2, Trace(score, s1, s2, h, w), start, w)
    ensures Optimal(score, s1, s2, Trace(score, s1, s2, h, w))
  {
    assert w in Winners(h, top);
    TopScoreIsOptimum(score, s1, s2, g, top);
    var start := TraceAligns(score, s1, s2, g, w);
    TraceScoresItsCell(score, s1, s2, g, w);
  }

  ghost predicate Untouched(g: Grid, h: Grid, q: Pos) {
    q.row < |g| && q.col < |g[q.row]| && q.row < |h| && q.col < |h[q.row]| && h[q.row][q.col] == g[q.row][q.col]
  }

  lemma ChoiceSurvives(score: Scorer, s1: seq<Line>, s2: seq<Line>, g: Grid, h: Grid, top: real, est: nat, p: Pos)
    requires ZeroBorder(s1, s2, g) && Suppressed(g, h, top, est, |s2|) && top > 0.0
    requires Inside(s1, s2, p)
    requires var c := Choice(score, s1, s2, g, p); Untouched(g, h, Before(p, c))
    ensures Choice(score, s1, s2, h, p) == Choice(score, s1, s2, g, p)
  {
    var (i, j) := (p.row, p.col);
    assert h[i - 1][j - 1] <= g[i - 1][j - 1];
    assert h[i - 1][j] <= g[i - 1][j];
    assert h[i][j - 1] <= g[i][j - 1];
  }

  /** After tie-breaking, the traceback from a cell is what it would have been before if and
      only if the earlier traceback visits no cell that the tie-breaker set to zero. */
  lemma {:induction false} TieBreakKeepsTrace(score: Scorer, s1: seq<Line>, s2: seq<Line>, g: Grid, h: Grid,
                                              top: real, est: nat, p: Pos)
    requires ZeroBorder(s1, s2, g) && ZeroBorder(s1, s2, h) && Suppressed(g, h, top, est, |s2|) && top > 0.0
    requires InGrid(s1, s2, p)
    ensures Trace(score, s1, s2, h, p) == Trace(score, s1, s2, g, p) <==>
            forall q :: q in Visited(score, s1, s2, g, p) ==> Untouched(g, h, q)
    decreases p.row + p.col
  {
    if Untouched(g, h, p) && g[p.row][p.col] != 0.0 {
      var c := Choice(score, s1, s2, g, p);
      var q := Before(p, c);
      TieBreakKeepsTrace(score, s1, s2, g, h, top, est, q);
      var c' := Choice(score, s1, s2, h, p);
      var (t, t') := (Trace(score, s1, s2, g, p), Trace(score, s1, s2, h, p));
      assert t == Trace(score, s1, s2, g, q) + [c];
      assert t' == Trace(score, s1, s2, h, Before(p, c')) + [c'];
      if t == t' {
        assert c' == t'[|t'| - 1] == c;
        assert Trace(score, s1, s2, h, q) == t'[..|t'| - 1] == t[..|t| - 1] == Trace(score, s1, s2, g, q);
      } else if forall r :: r in Visited(score, s1, s2, g, p) ==> Untouched(g, h, r) {
        ChoiceSurvives(score, s1, s2, g, h, top, est, p);
        assert false;
      }
    }
  }

  // ---------------------------------------------------------------- what tie-breaking costs

  /** `h` is `g` with some cells set to zero. */
  ghost predicate Zeroed(s1: seq<Line>, s2: seq<Line>, g: Grid, h: Grid) {
    && ZeroBorder(s1, s2, g) && ZeroBorder(s1, s2, h)
    && forall i, j :: 0 <= i <= |s1| && 0 <= j <= |s2| ==> 0.0 <= h[i][j] && (h[i][j] == g[i][j] || h[i][j] == 0.0)
  }

  /** The best way into `q` is as good over `h` as over `g`. */
  ghost predicate KeepsBest(score: Scorer, s1: seq<Line>, s2: seq<Line>, g: Grid, h: Grid, q: Pos)
    requires ZeroBorder(s1, s2, g) && ZeroBorder(s1, s2, h)
  {
    Inside(s1, s2, q) && h[q.row][q.col] != 0.0 ==> Best(score, s1, s2, h, q) == Best(score, s1, s2, g, q)
  }

  ghost predicate WalkKeepsBest(score: Scorer, s1: seq<Line>, s2: seq<Line>, g: Grid, h: Grid, p: Pos)
    requires ZeroBorder(s1, s2, g) && ZeroBorder(s1, s2, h) && InGrid(s1, s2, p)
  {
    forall q :: q in Visited(score, s1, s2, h, p) ==> KeepsBest(score, s1, s2, g, h, q)
  }

  lemma ChoiceScoresBest(score: Scorer, s1: seq<Line>, s2: seq<Line>, h: Grid, p: Pos)
    requires ZeroBorder(s1, s2, h) && Inside(s1, s2, p)
    ensures var c := Choice(score, s1, s2, h, p);
            var q := Before(p, c);
            Best(score, s1, s2, h, p) == h[q.row][q.col] + PairScore(score, s1, s2, c)
  {
  }

  lemma BestFalls(score: Scorer, s1: seq<Line>, s2: seq<Line>, g: Grid, h: Grid, p: Pos)
    requires IsMatrix(score, s1, s2, g) && Zeroed(s1, s2, g, h) && InGrid(s1, s2, p) && h[p.row][p.col] != 0.0
    ensures Inside(s1, s2, p) && Best(score, s1, s2, h, p) <= Best(score, s1, s2, g, p) == h[p.row][p.col]
  {
    var (i, j) := (p.row, p.col);
    assert g[i][j] == Cell(score, s1, s2, i, j);
    assert 0.0 <= h[i - 1][j - 1] <= g[i - 1][j - 1] && 0.0 <= h[i - 1][j] <= g[i - 1][j];
    assert 0.0 <= h[i][j - 1] <= g[i][j - 1];
  }

  /** The walk over the changed matrix is worth its first cell exactly when no step on it has
      lost a better way; otherwise it is worth less. */
  lemma {:induction false} WalkWorthIff(score: Scorer, s1: seq<Line>, s2: seq<Line>, g: Grid, h: Grid, p: Pos)
    requires IsMatrix(score, s1, s2, g) && Zeroed(s1, s2, g, h) && InGrid(s1, s2, p)
    ensures Total(score, s1, s2, Trace(score, s1, s2, h, p)) <= h[p.row][p.col]
    ensures Total(score, s1, s2, Trace(score, s1, s2, h, p)) == h[p.row][p.col] <==>
            WalkKeepsBest(score, s1, s2, g, h, p)
    decreases p.row + p.col
  {
    if h[p.row][p.col] != 0.0 {
      BestFalls(score, s1, s2, g, h, p);
      ChoiceScoresBest(score, s1, s2, h, p);
      var c := Choice(score, s1, s2, h, p);
      var q := Before(p, c);
      WalkWorthIff(score, s1, s2, g, h, q);
      var t := Trace(score, s1, s2, h, p);
      assert t[..|t| - 1] == Trace(score, s1, s2, h, q);
      assert WalkKeepsBest(score, s1, s2, g, h, p) <==>
        WalkKeepsBest(score, s1, s2, g, h, q) && KeepsBest(score, s1, s2, g, h, p);
    }
  }

  /** The returned alignment is optimal if and only if the walk back from the surviving cell
      `w` meets no cell whose best way in the tie-breaker has spoilt; otherwise it is worth
      less than the top score. */
  lemma ReturnedIsOptimalIff(score: Scorer, s1: seq<Line>, s2: seq<Line>, est: Option<nat>, path: seq<Pair>,
                             g: Grid, h: Grid, top: real, w: Pos)
    requires MatchedBy(score, s1, s2, est, Ok(path), g, h, top, w)
    ensures Optimal(score, s1, s2, path) <==> WalkKeepsBest(score, s1, s2, g, h, w)
    ensures Optimal(score, s1, s2, path) <==> Total(score, s1, s2, path) == top
    ensures Total(score, s1, s2, path) <= top
  {
    assert w in Winners(h, top);
    WalkWorthIff(score, s1, s2, g, h, w);
    TopScoreIsOptimum(score, s1, s2, g, top);
  }

  /** After tie-breaking the returned pairs are still an alignment that ends in the surviving
      cell, near the estimate; it keeps the top score exactly under the same condition. */
  lemma TieBrokenAlignment(score: Scorer, s1: seq<Line>, s2: seq<Line>, g: Grid, h: Grid,
                           top: real, est: nat, w: Pos)
    requires IsMatrix(score, s1, s2, g) && ZeroBorder(s1, s2, h) && InGrid(s1, s2, w)
    requires Survives(g, h, top, Some(est), |s2|, w) && |Winners(g, top)| != 1
    ensures exists start :: Aligns(s1, s2, Trace(score, s1, s2, h, w), start, w)
    ensures Total(score, s1, s2, Trace(score, s1, s2, h, w)) <= top
    ensures Near(est, |s2|, w.row)
    ensures Total(score, s1, s2, Trace(score, s1, s2, h, w)) == top <==> WalkKeepsBest(score, s1, s2, g, h, w)
  {
    assert w in Winners(h, top);
    FarIff(est, |s2|, w.row);
    var start := TraceAligns(score, s1, s2, h, w);
    WalkWorthIff(score, s1, s2, g, h, w);
  }

  // ---------------------------------------------------------------- one answer

  lemma MatrixIsUnique(score: Scorer, s1: seq<Line>, s2: seq<Line>, g: Grid, h: Grid)
    requires IsMatrix(score, s1, s2, g) && IsMatrix(score, s1, s2, h)
    ensures g == h
  {
    forall i | 0 <= i <= |s1| ensures g[i] == h[i] {
    }
  }

  lemma SuppressedIsUnique(g: Grid, h: Grid, k: Grid, top: real, est: nat, seq2Len: nat)
    requires Suppressed(g, h, top, est, seq2Len) && Suppressed(g, k, top, est, seq2Len)
    ensures h == k
  {
    forall i | 0 <= i < |g| ensures h[i] == k[i] {
    }
  }

  lemma TopIsUnique(g: Grid, x: real, y: real)
    requires IsTop(g, x) && IsTop(g, y)
    ensures x == y
  {
    if x > 0.0 {
      var p :| p in Winners(g, x);
    }
    if y > 0.0 {
      var p :| p in Winners(g, y);
    }
  }

  lemma SameMatch(score: Scorer, s1: seq<Line>, s2: seq<Line>, est: Option<nat>,
                  r: Result<seq<Pair>, AlignError>, g: Grid, h: Grid, top: real, w: Pos,
                  q: Result<seq<Pair>, AlignError>, g': Grid, h': Grid, top': real, w': Pos)
    ensures MatchedBy(score, s1, s2, est, r, g, h, top, w) && MatchedBy(score, s1, s2, est, q, g', h', top', w')
        ==> q == r
  {
    if MatchedBy(score, s1, s2, est, r, g, h, top, w) && MatchedBy(score, s1, s2, est, q, g', h', top', w') {
      MatrixIsUnique(score, s1, s2, g, g');
      TopIsUnique(g, top, top');
      if top >= MIN_SCORE {
        if |Winners(g, top)| != 1 && est.Some? {
          SuppressedIsUnique(g, h, h', top, est.value, |s2|);
        }
        assert h == h';
        assert Winners(h, top) == {w} && Winners(h, top) == {w'} ==> w in {w'};
      }
    }
  }

  /** The matcher's answer is determined by its input. */
  lemma MatchIsUnique(score: Scorer, s1: seq<Line>, s2: seq<Line>, est: Option<nat>,
                      r: Result<seq<Pair>, AlignError>, q: Result<seq<Pair>, AlignError>)
    ensures Matched(score, s1, s2, est, r) && Matched(score, s1, s2, est, q) ==> q == r
  {
    if Matched(score, s1, s2, est, r) && Matched(score, s1, s2, est, q) {
      var g, h, top, w :| MatchedBy(score, s1, s2, est, r, g, h, top, w);
      var g', h', top', w' :| MatchedBy(score, s1, s2, est, q, g', h', top', w');
      SameMatch(score, s1, s2, est, r, g, h, top, w, q, g', h', top', w');
    }
  }

  /** A returned list of pairs is an alignment. */
  lemma MatchAligns(score: Scorer, s1: seq<Line>, s2: seq<Line>, est: Option<nat>, path: seq<Pair>)
    returns (start: Pos, end: Pos)
    ensures Matched(score, s1, s2, est, Ok(path)) ==> Aligns(s1, s2, path, start, end)
  {
    start, end := Pos(0, 0), Pos(0, 0);
    if Matched(score, s1, s2, est, Ok(path)) {
      var g, h, top, w :| MatchedBy(score, s1, s2, est, Ok(path), g, h, top, w);
      start := TraceAligns(score, s1, s2, h, w);
      end := w;
    }
  }

  // ---------------------------------------------------------------- where a tie is broken

  predicate HoldsTop(g: Grid, top: real, p: Pos) {
    p.row < |g| && p.col < |g[p.row]| && g[p.row][p.col] == top
  }

  /** Less than ten rows from the estimated line, less half the length of the hunk. */
  predicate Near(est: nat, seq2Len: nat, row: nat) {
    est as real - seq2Len as real / 2.0 - 10.0 < row as real < est as real - seq2Len as real / 2.0 + 10.0
  }

  ghost predicate OnlyNear(g: Grid, top: real, est: nat, seq2Len: nat, p: Pos) {
    && HoldsTop(g, top, p) && Near(est, seq2Len, p.row)
    && forall q :: HoldsTop(g, top, q) && Near(est, seq2Len, q.row) ==> q == p
  }

  ghost predicate EndsAt(s1: seq<Line>, s2: seq<Line>, path: seq<Pair>, p: Pos) {
    exists start :: Aligns(s1, s2, path, start, p)
  }

  /** An answer if and only if one top cell is near the estimate, ending there; else ambiguous. */
  ghost predicate DecidedByNearness(s1: seq<Line>, s2: seq<Line>, est: nat, r: Result<seq<Pair>, AlignError>,
                                    g: Grid, top: real) {
    && (r.Ok? <==> exists w :: OnlyNear(g, top, est, |s2|, w))
    && (r.Ok? ==> forall w :: OnlyNear(g, top, est, |s2|, w) ==> EndsAt(s1, s2, r.value, w))
    && (r.Err? ==> r == Err(AmbiguousMatch))
  }

  /** Where several cells hold the top score, the matcher answers exactly when one of them is
      near the estimate, with an alignment that ends there; otherwise the match is ambiguous. */
  lemma TieIsBrokenIff(score: Scorer, s1: seq<Line>, s2: seq<Line>, est: nat, r: Result<seq<Pair>, AlignError>,
                       g: Grid, top: real, p: Pos, q: Pos)
    requires Matched(score, s1, s2, Some(est), r) && IsMatrix(score, s1, s2, g)
    requires HoldsTop(g, top, p) && HoldsTop(g, top, q) && p != q && top >= 2.0
    requires forall i, j :: 0 <= i < |g| && 0 <= j < |g[i]| ==> g[i][j] <= top
    ensures DecidedByNearness(s1, s2, est, r, g, top)
  {
    var g', h, top', w :| MatchedBy(score, s1, s2, Some(est), r, g', h, top', w);
    assert p in Winners(g, top) && q in Winners(g, top);
    TwoAreNotOne(Winners(g, top), p, q);
    SameMatrix(score, s1, s2, g, g', top, top');
    TieIsDecided(score, s1, s2, est, r, g', h, top', w);
  }

  lemma SameMatrix(score: Scorer, s1: seq<Line>, s2: seq<Line>, g: Grid, g': Grid, top: real, top': real)
    requires IsMatrix(score, s1, s2, g) && IsMatrix(score, s1, s2, g') && IsTop(g, top) && IsTop(g', top')
    ensures g == g' && top == top'
  {
    MatrixIsUnique(score, s1, s2, g, g');
    TopIsUnique(g, top, top');
  }

  lemma TieIsDecided(score: Scorer, s1: seq<Line>, s2: seq<Line>, est: nat, r: Result<seq<Pair>, AlignError>,
                     g: Grid, h: Grid, top: real, w: Pos)
    requires MatchedBy(score, s1, s2, Some(est), r, g, h, top, w) && top >= 2.0 && |Winners(g, top)| != 1
    ensures DecidedByNearness(s1, s2, est, r, g, top)
  {
    NearOnesSurvive(g, h, top, est, |s2|);
    OneWinnerIff(h, top, g, est, |s2|);
    if r.Ok? {
      var start := TraceAligns(score, s1, s2, h, w);
      assert w in Winners(h, top);
      forall v | OnlyNear(g, top, est, |s2|, v) ensures EndsAt(s1, s2, r.value, v) {
        assert v == w;
      }
    }
  }

  lemma NearOnesSurvive(g: Grid, h: Grid, top: real, est: nat, seq2Len: nat)
    requires Suppressed(g, h, top, est, seq2Len) && top > 0.0
    ensures forall v :: v in Winners(h, top) <==> HoldsTop(g, top, v) && Near(est, seq2Len, v.row)
  {
    forall v ensures v in Winners(h, top) <==> HoldsTop(g, top, v) && Near(est, seq2Len, v.row) {
      FarIff(est, seq2Len, v.row);
      assert v == Pos(v.row, v.col);
      assert v in Winners(h, top) <==> HoldsTop(h, top, v);
    }
  }

  lemma FarIff(est: nat, seq2Len: nat, row: nat)
    ensures TooFar(est, seq2Len, row) <==> !Near(est, seq2Len, row)
  {
  }

  lemma TwoAreNotOne<T>(s: set<T>, x: T, y: T)
    requires x in s && y in s && x != y
    ensures |s| != 1
  {
    assert |s - {x}| == |s| - 1 && y in s - {x};
  }

  lemma OneWinnerIff(h: Grid, top: real, g: Grid, est: nat, seq2Len: nat)
    requires forall v :: v in Winners(h, top) <==> HoldsTop(g, top, v) && Near(est, seq2Len, v.row)
    ensures |Winners(h, top)| == 1 <==> exists w :: OnlyNear(g, top, est, seq2Len, w)
  {
    var ws := Winners(h, top);
    if |ws| == 1 {
      var w :| w in ws;
      SingletonOf(ws, w);
      assert OnlyNear(g, top, est, seq2Len, w);
    }
    if w :| OnlyNear(g, top, est, seq2Len, w) {
      assert ws == {w};
    }
  }
}
