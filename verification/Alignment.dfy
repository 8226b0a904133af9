/** The Smith-Waterman matcher of src/patch.rs: the dynamic program, its traceback and
    the tie-breaker.  Scores are reals and the line score is an arbitrary function. */
module Alignment {
  import opened Wrappers

  type Line = string
  type Scorer = (Line, Line) -> real
  type Grid = seq<seq<real>>

  // One aligned pair: line of the first sequence, line of the second; a gap is None.
  type Pair = (Option<nat>, Option<nat>)

  datatype Pos = Pos(row: nat, col: nat)
  datatype AlignError = NoGoodMatch | AmbiguousMatch

  const GAP_CHAR: Line := "__GAP_CHAR__"
  const NEW_SENTINEL: Line := "+~NEW~+"
  const MIN_SCORE: real := 2.0
  const LINE_SLACK: real := 10.0

  function Max(x: real, y: real): real { if x < y then y else x }

  function Abs(x: real): real { if x < 0.0 then -x else x }

  // ---------------------------------------------------------------- alignments

  predicate InGrid(s1: seq<Line>, s2: seq<Line>, p: Pos) {
    p.row <= |s1| && p.col <= |s2|
  }

  /** `path` leads from cell `start` to cell `end`, one step at a time, and every cell
      after the start lies inside the matrix, off its zero row and zero column. */
  ghost predicate Aligns(s1: seq<Line>, s2: seq<Line>, path: seq<Pair>, start: Pos, end: Pos)
    decreases |path|
  {
    if path == [] then start == end && InGrid(s1, s2, end)
    else
      && 1 <= end.row <= |s1| && 1 <= end.col <= |s2|
      && var front := path[..|path| - 1];
         match path[|path| - 1]
         case (Some(i), Some(j)) => end == Pos(i + 1, j + 1) && Aligns(s1, s2, front, start, Pos(i, j))
         case (Some(i), None) => end.row == i + 1 && Aligns(s1, s2, front, start, Pos(i, end.col))
         case (None, Some(j)) => end.col == j + 1 && Aligns(s1, s2, front, start, Pos(end.row, j))
         case (None, None) => false
  }

  function PairScore(score: Scorer, s1: seq<Line>, s2: seq<Line>, p: Pair): real {
    match p
    case (Some(i), Some(j)) => if i < |s1| && j < |s2| then score(s1[i], s2[j]) else 0.0
    case (Some(i), None) => if i < |s1| then score(s1[i], GAP_CHAR) else 0.0
    case (None, Some(j)) => if j < |s2| then score(s2[j], GAP_CHAR) else 0.0
    case (None, None) => 0.0
  }

  function Total(score: Scorer, s1: seq<Line>, s2: seq<Line>, path: seq<Pair>): real {
    if path == [] then 0.0
    else Total(score, s1, s2, path[..|path| - 1]) + PairScore(score, s1, s2, path[|path| - 1])
  }

  function Firsts(path: seq<Pair>): seq<nat> {
    if path == [] then []
    else Firsts(path[..|path| - 1]) + (if path[|path| - 1].0.Some? then [path[|path| - 1].0.value] else [])
  }

  function Seconds(path: seq<Pair>): seq<nat> {
    if path == [] then []
    else Seconds(path[..|path| - 1]) + (if path[|path| - 1].1.Some? then [path[|path| - 1].1.value] else [])
  }

  function Range(lo: nat, hi: nat): (r: seq<nat>)
    requires lo <= hi
    ensures |r| == hi - lo && forall k :: 0 <= k < |r| ==> r[k] == lo + k
    decreases hi
  {
    if lo == hi then [] else Range(lo, hi - 1) + [hi - 1]
  }

  lemma {:induction false} FirstsAreConsecutive(s1: seq<Line>, s2: seq<Line>, path: seq<Pair>, start: Pos, end: Pos)
    requires Aligns(s1, s2, path, start, end)
    ensures InGrid(s1, s2, end)
    ensures start.row <= end.row && Firsts(path) == Range(start.row, end.row)
    decreases |path|
  {
    if path != [] {
      var front := path[..|path| - 1];
      match path[|path| - 1]
      case (Some(i), Some(j)) => FirstsAreConsecutive(s1, s2, front, start, Pos(i, j));
      case (Some(i), None) => FirstsAreConsecutive(s1, s2, front, start, Pos(i, end.col));
      case (None, Some(j)) => FirstsAreConsecutive(s1, s2, front, start, Pos(end.row, j));
    }
  }

  lemma {:induction false} SecondsAreConsecutive(s1: seq<Line>, s2: seq<Line>, path: seq<Pair>, start: Pos, end: Pos)
    requires Aligns(s1, s2, path, start, end)
    ensures InGrid(s1, s2, end)
    ensures start.col <= end.col && Seconds(path) == Range(start.col, end.col)
    decreases |path|
  {
    if path != [] {
      var front := path[..|path| - 1];
      match path[|path| - 1]
      case (Some(i), Some(j)) => SecondsAreConsecutive(s1, s2, front, start, Pos(i, j));
      case (Some(i), None) => SecondsAreConsecutive(s1, s2, front, start, Pos(i, end.col));
      case (None, Some(j)) => SecondsAreConsecutive(s1, s2, front, start, Pos(end.row, j));
    }
  }

  /** An alignment uses consecutive lines of both sequences, each once and in order. */
  lemma AlignmentIsContiguous(s1: seq<Line>, s2: seq<Line>, path: seq<Pair>, start: Pos, end: Pos)
    requires Aligns(s1, s2, path, start, end)
    ensures InGrid(s1, s2, end)
    ensures start.row <= end.row && start.col <= end.col
    ensures Firsts(path) == Range(start.row, end.row)
    ensures Seconds(path) == Range(start.col, end.col)
  {
    FirstsAreConsecutive(s1, s2, path, start, end);
    SecondsAreConsecutive(s1, s2, path, start, end);
  }

  // ---------------------------------------------------------------- the dynamic program

  /** One cell from its three neighbours. */
  function CellFrom(score: Scorer, x: Line, y: Line, diag: real, up: real, left: real): real {
    var matchS := diag + score(x, y);
    var delS := up + score(x, GAP_CHAR);
    var insS := left + score(y, GAP_CHAR);
    Max(matchS, Max(Max(delS, insS), 0.0))
  }

  function Cell(score: Scorer, s1: seq<Line>, s2: seq<Line>, i: nat, j: nat): real
    requires i <= |s1| && j <= |s2|
    decreases i + j
  {
    if i == 0 || j == 0 then 0.0
    else CellFrom(score, s1[i - 1], s2[j - 1],
                  Cell(score, s1, s2, i - 1, j - 1), Cell(score, s1, s2, i - 1, j), Cell(score, s1, s2, i, j - 1))
  }

  /** `g` is the matrix the dynamic program computes. */
  ghost predicate IsMatrix(score: Scorer, s1: seq<Line>, s2: seq<Line>, g: Grid) {
    && ZeroBorder(s1, s2, g)
    && (forall i, j :: 0 <= i <= |s1| && 0 <= j <= |s2| ==> g[i][j] == Cell(score, s1, s2, i, j))
  }

  ghost function Matrix(score: Scorer, s1: seq<Line>, s2: seq<Line>): (g: Grid)
    ensures IsMatrix(score, s1, s2, g)
  {
    seq(|s1| + 1, i requires 0 <= i <= |s1| =>
      seq(|s2| + 1, j requires 0 <= j <= |s2| && 0 <= i <= |s1| => Cell(score, s1, s2, i, j)))
  }

  predicate Sized(g: Grid, n: nat, m: nat) {
    |g| == n && forall i :: 0 <= i < n ==> |g[i]| == m
  }

  ghost predicate ZeroBorder(s1: seq<Line>, s2: seq<Line>, g: Grid) {
    && Sized(g, |s1| + 1, |s2| + 1)
    && (forall i :: 0 <= i <= |s1| ==> g[i][0] == 0.0)
    && (forall j :: 0 <= j <= |s2| ==> g[0][j] == 0.0)
  }

  /** No alignment, empty or not, scores more than the cell it ends in. */
  lemma {:induction false} NoPathBeatsItsCell(
    score: Scorer, s1: seq<Line>, s2: seq<Line>, path: seq<Pair>, start: Pos, end: Pos)
    requires Aligns(s1, s2, path, start, end)
    ensures InGrid(s1, s2, end)
    ensures Total(score, s1, s2, path) <= Cell(score, s1, s2, end.row, end.col)
    decreases |path|
  {
    if path != [] {
      var front := path[..|path| - 1];
      match path[|path| - 1]
      case (Some(i), Some(j)) => NoPathBeatsItsCell(score, s1, s2, front, start, Pos(i, j));
      case (Some(i), None) => NoPathBeatsItsCell(score, s1, s2, front, start, Pos(i, end.col));
      case (None, Some(j)) => NoPathBeatsItsCell(score, s1, s2, front, start, Pos(end.row, j));
    }
  }

  // ---------------------------------------------------------------- the traceback

  predicate Inside(s1: seq<Line>, s2: seq<Line>, p: Pos) {
    1 <= p.row <= |s1| && 1 <= p.col <= |s2|
  }

  /** The best of the three candidates for an inside cell. */
  function Best(score: Scorer, s1: seq<Line>, s2: seq<Line>, g: Grid, p: Pos): real
    requires Sized(g, |s1| + 1, |s2| + 1) && Inside(s1, s2, p)
  {
    var (i, j) := (p.row, p.col);
    Max(g[i - 1][j - 1] + score(s1[i - 1], s2[j - 1]),
        Max(g[i - 1][j] + score(s1[i - 1], GAP_CHAR), g[i][j - 1] + score(s2[j - 1], GAP_CHAR)))
  }

  /** The pair the traceback pushes at an inside cell: match before delete before insert. */
  ghost function Choice(score: Scorer, s1: seq<Line>, s2: seq<Line>, g: Grid, p: Pos): Pair
    requires Sized(g, |s1| + 1, |s2| + 1) && Inside(s1, s2, p)
  {
    var (i, j) := (p.row, p.col);
    var matchS := g[i - 1][j - 1] + score(s1[i - 1], s2[j - 1]);
    var delS := g[i - 1][j] + score(s1[i - 1], GAP_CHAR);
    var insS := g[i][j - 1] + score(s2[j - 1], GAP_CHAR);
    var best := Max(matchS, Max(delS, insS));
    if matchS == best then (Some(i - 1), Some(j - 1))
    else if delS == best then (Some(i - 1), None)
    else (None, Some(j - 1))
  }

  /** A match is taken where nothing beats it, a deletion where it beats the match and nothing
      beats it, an insertion only where it beats both. */
  lemma MatchIsPreferred(score: Scorer, s1: seq<Line>, s2: seq<Line>, g: Grid, p: Pos)
    requires Sized(g, |s1| + 1, |s2| + 1) && Inside(s1, s2, p)
    ensures var (i, j) := (p.row - 1, p.col - 1);
      var matched := g[i][j] + score(s1[i], s2[j]);
      var deleted := g[i][j + 1] + score(s1[i], GAP_CHAR);
      var inserted := g[i + 1][j] + score(s2[j], GAP_CHAR);
      match Choice(score, s1, s2, g, p)
      case (Some(r), Some(c)) => r == i && c == j && matched >= deleted && matched >= inserted
      case (Some(r), None) => r == i && deleted > matched && deleted >= inserted
      case (None, Some(c)) => c == j && inserted > matched && inserted > deleted
      case (None, None) => false
  {
  }

  /** The cell before `p` along pair `c`. */
  function Before(p: Pos, c: Pair): Pos
    requires p.row > 0 && p.col > 0
  {
    Pos(if c.0.Some? then p.row - 1 else p.row, if c.1.Some? then p.col - 1 else p.col)
  }

  ghost function Trace(score: Scorer, s1: seq<Line>, s2: seq<Line>, g: Grid, p: Pos): seq<Pair>
    requires ZeroBorder(s1, s2, g) && InGrid(s1, s2, p)
    decreases p.row + p.col
  {
    if g[p.row][p.col] == 0.0 then []
    else
      var c := Choice(score, s1, s2, g, p);
      Trace(score, s1, s2, g, Before(p, c)) + [c]
  }

  /** The cells the traceback looks at, the zero cell it stops on included. */
  ghost function Visited(score: Scorer, s1: seq<Line>, s2: seq<Line>, g: Grid, p: Pos): set<Pos>
    requires ZeroBorder(s1, s2, g) && InGrid(s1, s2, p)
    decreases p.row + p.col
  {
    if g[p.row][p.col] == 0.0 then {p}
    else {p} + Visited(score, s1, s2, g, Before(p, Choice(score, s1, s2, g, p)))
  }

  /** From any cell of any matrix with a zero border the traceback yields an alignment
      that ends in that cell. */
  lemma {:induction false} TraceAligns(score: Scorer, s1: seq<Line>, s2: seq<Line>, g: Grid, p: Pos)
    returns (start: Pos)
    requires ZeroBorder(s1, s2, g) && InGrid(s1, s2, p)
    ensures Aligns(s1, s2, Trace(score, s1, s2, g, p), start, p)
    decreases p.row + p.col
  {
    start := p;
    if g[p.row][p.col] != 0.0 {
      var c := Choice(score, s1, s2, g, p);
      start := TraceAligns(score, s1, s2, g, Before(p, c));
      assert Trace(score, s1, s2, g, p)[..|Trace(score, s1, s2, g, p)| - 1] == Trace(score, s1, s2, g, Before(p, c));
    }
  }

  /** Where the matrix is not zero, the chosen pair accounts for the whole cell. */
  lemma ChoiceExplainsCell(score: Scorer, s1: seq<Line>, s2: seq<Line>, g: Grid, p: Pos)
    requires IsMatrix(score, s1, s2, g) && InGrid(s1, s2, p) && g[p.row][p.col] != 0.0
    ensures Inside(s1, s2, p)
    ensures var c := Choice(score, s1, s2, g, p);
            var q := Before(p, c);
            g[p.row][p.col] == g[q.row][q.col] + PairScore(score, s1, s2, c)
  {
    assert g[p.row][p.col] == Cell(score, s1, s2, p.row, p.col);
  }

  /** On the matrix the dynamic program built, the traceback's scores add up to the cell. */
  lemma {:induction false} TraceScoresItsCell(score: Scorer, s1: seq<Line>, s2: seq<Line>, g: Grid, p: Pos)
    requires IsMatrix(score, s1, s2, g) && InGrid(s1, s2, p)
    ensures Total(score, s1, s2, Trace(score, s1, s2, g, p)) == g[p.row][p.col]
    decreases p.row + p.col
  {
    if g[p.row][p.col] != 0.0 {
      var c := Choice(score, s1, s2, g, p);
      TraceScoresItsCell(score, s1, s2, g, Before(p, c));
      ChoiceExplainsCell(score, s1, s2, g, p);
      var t := Trace(score, s1, s2, g, p);
      assert t[..|t| - 1] == Trace(score, s1, s2, g, Before(p, c));
    }
  }

  /** Every matrix cell is the greatest total of all alignments that end in it. */
  lemma CellIsOptimum(score: Scorer, s1: seq<Line>, s2: seq<Line>, p: Pos)
    requires InGrid(s1, s2, p)
    ensures forall path, start :: Aligns(s1, s2, path, start, p) ==>
              Total(score, s1, s2, path) <= Cell(score, s1, s2, p.row, p.col)
    ensures exists path, start ::
              Aligns(s1, s2, path, start, p) && Total(score, s1, s2, path) == Cell(score, s1, s2, p.row, p.col)
  {
    forall path, start | Aligns(s1, s2, path, start, p)
      ensures Total(score, s1, s2, path) <= Cell(score, s1, s2, p.row, p.col)
    {
      NoPathBeatsItsCell(score, s1, s2, path, start, p);
    }
    var g := Matrix(score, s1, s2);
    var start := TraceAligns(score, s1, s2, g, p);
    TraceScoresItsCell(score, s1, s2, g, p);
  }
}
