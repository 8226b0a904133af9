/** Inputs on which the matcher, with its own line score, falls short (src/patch.rs). */
module MatcherInputs {
  import opened Wrappers
  import opened Alignment
  import opened LineScore
  import opened Matcher
  import opened MatcherTheorems

  /** Long tails are a mismatch. */
  lemma LongTails(root: Root, a: Line, b: Line)
    requires |a| >= 4 && |b| >= 1 && a[0] != b[0]
    requires !(a == NEW_SENTINEL && b == GAP_CHAR) && !(b == NEW_SENTINEL && a == GAP_CHAR)
    ensures Score(root, a, b) == MISMATCH
  {
    if Special(root, a, b).None? {
      assert CommonPrefix(a, b) == 0;
      ScoreIsLengthScore(root, a, b);
    }
  }

  // ---------------------------------------------------------------- a lost optimum

  const LEFT: seq<Line> := ["xxxxxxxx", "ppppabc"]
  const RIGHT: seq<Line> := ["xxxxxxxx", "ppppxy"]
  const TIED: Grid := [[0.0, 0.0, 0.0], [0.0, 2.0, 1.5], [0.0, 1.5, 2.0]]
  const UNTIED: Grid := [[0.0, 0.0, 0.0], [0.0, 0.0, 1.5], [0.0, 1.5, 2.0]]

  /** The two lines that begin alike. */
  lemma SecondPair(root: Root, a: Line, b: Line)
    requires a == "ppppabc" && b == "ppppxy" && IsRoot(root)
    ensures Score(root, a, b) == 0.0
  {
    assert a[1..] == "pppabc" && b[1..] == "pppxy" && a[1..][1..] == "ppabc" && b[1..][1..] == "ppxy";
    assert a[1..][1..][1..] == "pabc" && b[1..][1..][1..] == "pxy";
    assert a[1..][1..][1..][1..] == "abc" && b[1..][1..][1..][1..] == "xy";
    assert CommonPrefix(a[1..][1..][1..][1..], b[1..][1..][1..][1..]) == 0;
    assert CommonPrefix(a[1..][1..][1..], b[1..][1..][1..]) == 1;
    assert CommonPrefix(a[1..][1..], b[1..][1..]) == 2;
    assert CommonPrefix(a[1..], b[1..]) == 3;
    assert CommonPrefix(a, b) == 4;
    assert |GAP_CHAR| == 12 && |a| == 7 && |b| == 6;
    assert NEW_SENTINEL[0] == '+';
    ScoreIsLengthScore(root, a, b);
  }

  ghost predicate TieTable(score: Scorer) {
    && score(LEFT[0], RIGHT[0]) == 2.0 && score(LEFT[1], RIGHT[1]) == 0.0
    && score(LEFT[0], RIGHT[1]) == -0.5 && score(LEFT[1], RIGHT[0]) == -0.5
    && score(LEFT[0], GAP_CHAR) == -0.5 && score(LEFT[1], GAP_CHAR) == -0.5
    && score(RIGHT[0], GAP_CHAR) == -0.5 && score(RIGHT[1], GAP_CHAR) == -0.5
  }

  lemma EightScores(root: Root, a: Line)
    requires IsRoot(root) && |a| == 8
    ensures Score(root, a, a) == 2.0
  {
    assert BitLength(8) == 4;
    RootTwo(root);
  }

  lemma TieScores(root: Root)
    requires IsRoot(root)
    ensures TieTable(Scored(root))
  {
    EightScores(root, LEFT[0]);
    SecondPair(root, LEFT[1], RIGHT[1]);
    LongTails(root, LEFT[0], RIGHT[1]);
    LongTails(root, LEFT[1], RIGHT[0]);
    LongTails(root, LEFT[0], GAP_CHAR);
    LongTails(root, LEFT[1], GAP_CHAR);
    LongTails(root, RIGHT[1], GAP_CHAR);
  }

  lemma TieWinners()
    ensures Winners(TIED, 2.0) == {Pos(1, 1), Pos(2, 2)} && |Winners(TIED, 2.0)| == 2
    ensures Winners(UNTIED, 2.0) == {Pos(2, 2)} && |Winners(UNTIED, 2.0)| == 1
    ensures TieBroken(TIED, UNTIED, 2.0, Some(12), 2) && IsTop(TIED, 2.0)
  {
    assert Winners(TIED, 2.0) == {Pos(1, 1), Pos(2, 2)};
    assert Winners(UNTIED, 2.0) == {Pos(2, 2)};
    assert TooFar(12, 2, 1) && !TooFar(12, 2, 2);
  }

  lemma TieTrace(s: Scorer, path: seq<Pair>)
    requires TieTable(s) && path == [(Some(0), Some(1)), (Some(1), None)]
    ensures Trace(s, LEFT, RIGHT, UNTIED, Pos(2, 2)) == path
  {
    assert Choice(s, LEFT, RIGHT, UNTIED, Pos(2, 2)) == (Some(1), None);
    assert Choice(s, LEFT, RIGHT, UNTIED, Pos(1, 2)) == (Some(0), Some(1));
    assert Trace(s, LEFT, RIGHT, UNTIED, Pos(0, 1)) == [];
    assert Trace(s, LEFT, RIGHT, UNTIED, Pos(1, 2)) == [] + [(Some(0), Some(1))];
  }

  lemma TieTotal(s: Scorer, path: seq<Pair>)
    requires TieTable(s) && path == [(Some(0), Some(1)), (Some(1), None)]
    ensures Total(s, LEFT, RIGHT, path) == -1.0
  {
    assert path[..1] == [path[0]] && path[..1][..0] == [];
    assert Total(s, LEFT, RIGHT, path[..1]) == -0.5;
  }

  lemma TieMatched(s: Scorer, path: seq<Pair>)
    requires TieTable(s) && path == [(Some(0), Some(1)), (Some(1), None)]
    ensures MatchedBy(s, LEFT, RIGHT, Some(12), Ok(path), TIED, UNTIED, 2.0, Pos(2, 2))
  {
    TieWinners();
    TieTrace(s, path);
  }

  /** Tie-breaking can cost the optimum: the alignment of the two equal lines is worth 2, and
      what is returned pairs the first with the wrong line and is worth -1. */
  lemma TieBreakMayLoseOptimum(root: Root, path: seq<Pair>)
    requires IsRoot(root) && path == [(Some(0), Some(1)), (Some(1), None)]
    ensures Matched(Scored(root), LEFT, RIGHT, Some(12), Ok(path))
    ensures Total(Scored(root), LEFT, RIGHT, path) == -1.0 && !Optimal(Scored(root), LEFT, RIGHT, path)
  {
    var s := Scored(root);
    TieScores(root);
    TieMatched(s, path);
    TieTotal(s, path);
    ReturnedIsOptimalIff(s, LEFT, RIGHT, Some(12), path, TIED, UNTIED, 2.0, Pos(2, 2));
  }
}
