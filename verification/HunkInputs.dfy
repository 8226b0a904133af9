/** Files and hunks on which apply_hunk falls short (crs/common/fuzzy_patch.py:342-381). */
module HunkInputs {
  import opened Wrappers
  import opened Alignment
  import opened ApplyHunk
  import opened ComputeEdit
  import opened FileLines
  import opened HunkFile
  import opened LineScore
  import opened Matcher
  import opened MatcherInputs
  import opened MatcherTheorems
  import opened Normalise

  const EIGHT: Line := "xxxxxxxx"

  /** Scores of the lines below. */
  ghost predicate HunkTable(s: Scorer) {
    && s(EIGHT, EIGHT) == 2.0 && s(EIGHT, NEW_SENTINEL) == -0.5 && s(EIGHT, GAP_CHAR) == -0.5
    && s("a", EIGHT) == -0.5 && s("a", NEW_SENTINEL) == -0.5 && s("a", GAP_CHAR) == -0.5
    && s(NEW_SENTINEL, GAP_CHAR) == 0.01
  }

  lemma SentinelGap(root: Root)
    ensures Score(root, NEW_SENTINEL, GAP_CHAR) == 0.01
  {
  }

  lemma HunkScores(root: Root)
    requires IsRoot(root)
    ensures HunkTable(Scored(root))
  {
    assert |EIGHT| == 8 && EIGHT[0] == 'x' && |"a"| == 1;
    EightScores(root, EIGHT);
    LongTails(root, EIGHT, NEW_SENTINEL);
    LongTails(root, EIGHT, GAP_CHAR);
    SentinelGap(root);
  }

  // ---------------------------------------------------------------- normalising them

  lemma {:induction false} WordIsNormal(w: Line)
    requires IsWord(w)
    ensures Norm(w) == w && WordsOf(w).words == [w] && '\n' !in w
  {
    assert AllWords([w]);
    WordsOfJoined([w]);
    assert Joined([w]) == w;
  }

  lemma NormOfWords(ts: seq<Line>)
    requires AllWords(ts)
    ensures NormAll(ts) == ts && NoNewlines(ts)
  {
    forall k | 0 <= k < |ts| ensures Norm(ts[k]) == ts[k] && '\n' !in ts[k] {
      assert IsWord(ts[k]);
      WordIsNormal(ts[k]);
    }
  }

  lemma CutNormal(buf: Line, full: seq<Line>, rest: Line)
    requires Cut(buf) == (full, rest) && NormAll(full) == full && Norm(rest) == rest
    requires rest == [] <==> WordsOf(rest).words == []
    ensures Normalised(buf) == full + if rest == [] then [] else [rest]
  {
    NormalisedLinewise(buf);
  }

  lemma UnfinishedWords(ts: seq<Line>, front: seq<Line>, last: Line)
    requires AllWords(front) && IsWord(last) && ts == front + [last]
    ensures Normalised(JoinNl(ts)) == ts
  {
    NormOfWords(front);
    WordIsNormal(last);
    assert NoNewlines(ts);
    assert ts[..|ts| - 1] == front && ts[|ts| - 1] == last;
    CutOfJoined(ts);
    CutNormal(JoinNl(ts), front, last);
  }

  lemma FinishedWords(ts: seq<Line>)
    requires AllWords(ts)
    ensures Normalised(JoinNl(ts + [[]])) == ts
  {
    NormOfWords(ts);
    var us := ts + [[]];
    assert us[..|us| - 1] == ts && us[|us| - 1] == [];
    CutOfJoined(us);
    assert WordsOf([]).words == [] && Norm([]) == [];
    CutNormal(JoinNl(us), ts, []);
  }

  lemma Letters()
    ensures IsWord(EIGHT) && IsWord("a") && IsWord(NEW_SENTINEL)
  {
    assert EIGHT == ['x', 'x', 'x', 'x', 'x', 'x', 'x', 'x'];
    assert NEW_SENTINEL == ['+', '~', 'N', 'E', 'W', '~', '+'];
  }

  // ---------------------------------------------------------------- a hunk that opens with '+'

  const TWO_LINES: seq<Line> := ["a", EIGHT]
  const OPENING_TEXT: seq<Line> := [NEW_SENTINEL, EIGHT]
  const OPENING_HUNK: seq<HunkLine> := [HunkLine(Add, "n"), HunkLine(Context, EIGHT)]
  const OPENING_MATRIX: Grid := [[0.0, 0.0, 0.0], [0.0, 0.01, 0.0], [0.0, 0.01, 2.01]]

  lemma OpeningTrace(s: Scorer, path: seq<Pair>)
    requires HunkTable(s) && path == [(None, Some(0)), (Some(1), Some(1))]
    ensures Trace(s, TWO_LINES, OPENING_TEXT, OPENING_MATRIX, Pos(2, 2)) == path
  {
    assert Choice(s, TWO_LINES, OPENING_TEXT, OPENING_MATRIX, Pos(2, 2)) == (Some(1), Some(1));
    assert Choice(s, TWO_LINES, OPENING_TEXT, OPENING_MATRIX, Pos(1, 1)) == (None, Some(0));
    assert Trace(s, TWO_LINES, OPENING_TEXT, OPENING_MATRIX, Pos(1, 0)) == [];
    assert Trace(s, TWO_LINES, OPENING_TEXT, OPENING_MATRIX, Pos(1, 1)) == [] + [(None, Some(0))];
  }

  lemma OpeningMatched(s: Scorer, line: nat, path: seq<Pair>)
    requires HunkTable(s) && path == [(None, Some(0)), (Some(1), Some(1))]
    ensures Matched(s, TWO_LINES, OPENING_TEXT, Some(line), Ok(path))
  {
    OpeningTrace(s, path);
    assert Winners(OPENING_MATRIX, 2.01) == {Pos(2, 2)} && |Winners(OPENING_MATRIX, 2.01)| == 1;
    assert MatchedBy(s, TWO_LINES, OPENING_TEXT, Some(line), Ok(path), OPENING_MATRIX, OPENING_MATRIX, 2.01, Pos(2, 2));
  }

  /** The file with lines "a" and `EIGHT`, as bytes. */
  const TWO_LINE_FILE: Bytes := "a" + "\n" + EIGHT + "\n"

  lemma TwoLinesJoined(us: seq<Line>)
    requires us == ["a", EIGHT, []]
    ensures JoinNl(us) == TWO_LINE_FILE && us == TWO_LINES + [[]]
  {
    assert us[..2] == TWO_LINES;
    assert TWO_LINES[..1] == ["a"];
    assert JoinNl(TWO_LINES) == "a" + "\n" + EIGHT;
  }

  lemma TwoLineFileSplits()
    ensures SplitInclusive(TWO_LINE_FILE) == ["a" + "\n", EIGHT + "\n"]
  {
    Letters();
    WordIsNormal("a");
    WordIsNormal(EIGHT);
    var us: seq<Line> := ["a", EIGHT, []];
    TwoLinesJoined(us);
    assert NoNewlines(us);
    CutOfJoined(us);
    LinesOfCut(TWO_LINE_FILE);
    assert us[..2] == TWO_LINES && WithNewlines(TWO_LINES) == ["a" + "\n", EIGHT + "\n"];
  }

  lemma TwoLineFileNormal()
    ensures Normalised(TWO_LINE_FILE) == TWO_LINES
  {
    Letters();
    var us: seq<Line> := ["a", EIGHT, []];
    TwoLinesJoined(us);
    FinishedWords(TWO_LINES);
  }

  lemma BothAreLineHunks()
    ensures LineHunk(OPENING_HUNK) && LineHunk(CLOSING_HUNK)
  {
    Letters();
    WordIsNormal(EIGHT);
    assert OPENING_HUNK[0].text == ['n'] && CLOSING_HUNK[1].text == ['b'];
  }

  lemma OpeningTexts()
    ensures Normalised(JoinNl(HunkTexts(OPENING_HUNK))) == OPENING_TEXT
  {
    Letters();
    assert HunkTexts(OPENING_HUNK) == OPENING_TEXT;
    TwoWords(OPENING_TEXT, NEW_SENTINEL, EIGHT);
  }

  lemma TwoWords(ts: seq<Line>, a: Line, b: Line)
    requires ts == [a, b] && IsWord(a) && IsWord(b)
    ensures Normalised(JoinNl(ts)) == ts
  {
    UnfinishedWords(ts, [a], b);
  }

  /** The checks pass, and the rebuild emits the added line after the whole file. */
  lemma OpeningRebuilds(path: seq<Pair>)
    requires path == [(None, Some(0)), (Some(1), Some(1))]
    ensures var (orig, nl) := (["a" + "\n", EIGHT + "\n"], Terminated(OPENING_HUNK));
      PairsOk(orig, nl, PairCheck(), path)
      && RebuiltAs(orig, nl, path, Ok(["a" + "\n", EIGHT + "\n", "n" + "\n", EIGHT + "\n"]))
  {
    var (orig, nl) := (["a" + "\n", EIGHT + "\n"], Terminated(OPENING_HUNK));
    assert nl[0] == HunkLine(Add, "n" + "\n") && nl[1] == HunkLine(Context, EIGHT + "\n");
    assert path[..1][..0] == [] && path[..1] == [path[0]];
    assert EmittedBy(orig, nl, path[..1]) == ["n" + "\n"];
    assert EmittedBy(orig, nl, path) == ["n" + "\n", EIGHT + "\n"];
    assert LastOrig(path) == 1 && orig[..2] == orig && orig[2..] == [];
    assert Rebuilt(orig, nl, path) == ["a" + "\n", EIGHT + "\n", "n" + "\n", EIGHT + "\n"];
    assert PairOk(orig, nl, PairCheck(), path[0]);
    assert PairOk(orig, nl, PairCheck(), path[1]);
  }

  /** `path` is the alignment the matcher gives, it passes the checks, and rebuilds to `ls`. */
  ghost predicate RebuildsTo(root: Root, buf: Bytes, elines: seq<HunkLine>, line: nat, path: seq<Pair>, ls: seq<Line>) {
    && Matched(Scored(root), Normalised(buf), Normalised(JoinNl(HunkTexts(elines))), Some(line), Ok(path))
    && PairsOk(SplitInclusive(buf), Terminated(elines), PairCheck(), path)
    && RebuiltAs(SplitInclusive(buf), Terminated(elines), path, Ok(ls))
  }

  lemma OutcomeIs(root: Root, buf: Bytes, elines: seq<HunkLine>, line: nat, path: seq<Pair>, ls: seq<Line>,
                  r: Result<Bytes, HunkError>)
    requires SplitInclusive(buf) != []
    ensures RebuildsTo(root, buf, elines, line, path, ls) ==>
      (Outcome(root, buf, elines, line, r) <==> r == Ok(JoinLines(ls)))
  {
    if RebuildsTo(root, buf, elines, line, path, ls) {
      var s1, s2 := Normalised(buf), Normalised(JoinNl(HunkTexts(elines)));
      assert AlignedFile(root, buf, elines, line, Ok(path));
      assert AppliedFile(buf, elines, Ok(path), Ok(JoinLines(ls)));
      if Outcome(root, buf, elines, line, r) {
        var a :| AlignedFile(root, buf, elines, line, a) && AppliedFile(buf, elines, a, r);
        MatchIsUnique(Scored(root), s1, s2, Some(line), a, Ok(path));
      }
    }
  }

  lemma JoinFour(a: Line, b: Line, c: Line, d: Line)
    ensures JoinLines([a, b, c, d]) == a + b + c + d
    ensures JoinLines([c, d]) == c + d
  {
    assert [a, b, c, d][1..] == [b, c, d] && [b, c, d][1..] == [c, d] && [c, d][1..] == [d] && [d][1..] == [];
    assert JoinLines([d]) == d;
    assert JoinLines([c, d]) == c + d;
    assert JoinLines([b, c, d]) == b + (c + d);
  }

  /** A hunk that opens with an added line is matched by its context line and doubles the file. */
  lemma OpeningAdditionDoublesFile(root: Root, line: nat, r: Result<Bytes, HunkError>)
    requires IsRoot(root)
    ensures LineHunk(OPENING_HUNK)
    ensures Outcome(root, TWO_LINE_FILE, OPENING_HUNK, line, r) <==>
            r == Ok("a" + "\n" + (EIGHT + "\n") + ("n" + "\n") + (EIGHT + "\n"))
  {
    BothAreLineHunks();
    var path: seq<Pair> := [(None, Some(0)), (Some(1), Some(1))];
    HunkScores(root);
    OpeningMatched(Scored(root), line, path);
    TwoLineFileSplits();
    TwoLineFileNormal();
    OpeningTexts();
    OpeningRebuilds(path);
    var ls: seq<Line> := ["a" + "\n", EIGHT + "\n", "n" + "\n", EIGHT + "\n"];
    OutcomeIs(root, TWO_LINE_FILE, OPENING_HUNK, line, path, ls, r);
    JoinFour("a" + "\n", EIGHT + "\n", "n" + "\n", EIGHT + "\n");
  }

  // ---------------------------------------------------------------- a last line without a newline

  const CLOSING_HUNK: seq<HunkLine> := [HunkLine(Context, EIGHT), HunkLine(Add, "b")]
  const ONE_LINE: seq<Line> := [EIGHT]
  const CLOSING_TEXT: seq<Line> := [EIGHT, NEW_SENTINEL]
  const CLOSING_MATRIX: Grid := [[0.0, 0.0, 0.0], [0.0, 2.0, 2.01]]

  lemma ClosingTrace(s: Scorer, path: seq<Pair>)
    requires HunkTable(s) && path == [(Some(0), Some(0)), (None, Some(1))]
    ensures IsMatrix(s, ONE_LINE, CLOSING_TEXT, CLOSING_MATRIX)
    ensures Trace(s, ONE_LINE, CLOSING_TEXT, CLOSING_MATRIX, Pos(1, 2)) == path
  {
    assert Cell(s, ONE_LINE, CLOSING_TEXT, 1, 1) == 2.0;
    assert Cell(s, ONE_LINE, CLOSING_TEXT, 1, 2) == 2.01;
    assert IsMatrix(s, ONE_LINE, CLOSING_TEXT, CLOSING_MATRIX);
    assert Choice(s, ONE_LINE, CLOSING_TEXT, CLOSING_MATRIX, Pos(1, 2)) == (None, Some(1));
    assert Choice(s, ONE_LINE, CLOSING_TEXT, CLOSING_MATRIX, Pos(1, 1)) == (Some(0), Some(0));
    assert Trace(s, ONE_LINE, CLOSING_TEXT, CLOSING_MATRIX, Pos(0, 0)) == [];
    assert Trace(s, ONE_LINE, CLOSING_TEXT, CLOSING_MATRIX, Pos(1, 1)) == [] + [(Some(0), Some(0))];
  }

  lemma ClosingMatched(s: Scorer, line: nat, path: seq<Pair>)
    requires HunkTable(s) && path == [(Some(0), Some(0)), (None, Some(1))]
    ensures Matched(s, ONE_LINE, CLOSING_TEXT, Some(line), Ok(path))
  {
    ClosingTrace(s, path);
    assert Winners(CLOSING_MATRIX, 2.01) == {Pos(1, 2)} && |Winners(CLOSING_MATRIX, 2.01)| == 1;
    assert IsTop(CLOSING_MATRIX, 2.01);
    assert MatchedBy(s, ONE_LINE, CLOSING_TEXT, Some(line), Ok(path), CLOSING_MATRIX, CLOSING_MATRIX, 2.01, Pos(1, 2));
  }

  lemma ClosingFile()
    ensures SplitInclusive(EIGHT) == ONE_LINE == Normalised(EIGHT)
  {
    Letters();
    WordIsNormal(EIGHT);
    UnfinishedWords([EIGHT], [], EIGHT);
    assert JoinNl([EIGHT]) == EIGHT;
    CutOfJoined([EIGHT]);
    LinesOfCut(EIGHT);
    assert [EIGHT][..0] == [] && WithNewlines([]) == [];
  }

  lemma ClosingTexts()
    ensures Normalised(JoinNl(HunkTexts(CLOSING_HUNK))) == CLOSING_TEXT
  {
    Letters();
    assert HunkTexts(CLOSING_HUNK) == CLOSING_TEXT;
    TwoWords(CLOSING_TEXT, EIGHT, NEW_SENTINEL);
  }

  lemma ClosingRebuilds(path: seq<Pair>)
    requires path == [(Some(0), Some(0)), (None, Some(1))]
    ensures var (orig, nl) := (ONE_LINE, Terminated(CLOSING_HUNK));
      PairsOk(orig, nl, PairCheck(), path) && RebuiltAs(orig, nl, path, Ok([EIGHT, "b" + "\n"]))
  {
    var (orig, nl) := (ONE_LINE, Terminated(CLOSING_HUNK));
    assert nl[0] == HunkLine(Context, EIGHT + "\n") && nl[1] == HunkLine(Add, "b" + "\n");
    assert path[..1][..0] == [] && path[..1] == [path[0]];
    assert EmittedBy(orig, nl, path[..1]) == [EIGHT];
    assert EmittedBy(orig, nl, path) == [EIGHT, "b" + "\n"];
    assert LastOrig(path[..1]) == 0 && LastOrig(path) == 0 && orig[..0] == [] && orig[1..] == [];
    assert Rebuilt(orig, nl, path) == [EIGHT, "b" + "\n"];
    assert PairOk(orig, nl, PairCheck(), path[0]);
    assert PairOk(orig, nl, PairCheck(), path[1]);
  }

  /** A line added after a last line without a newline is glued to it. */
  lemma AddedLineRunsOn(root: Root, line: nat, r: Result<Bytes, HunkError>)
    requires IsRoot(root)
    ensures LineHunk(CLOSING_HUNK)
    ensures Outcome(root, EIGHT, CLOSING_HUNK, line, r) <==> r == Ok(EIGHT + ("b" + "\n"))
  {
    BothAreLineHunks();
    var path: seq<Pair> := [(Some(0), Some(0)), (None, Some(1))];
    HunkScores(root);
    ClosingMatched(Scored(root), line, path);
    ClosingFile();
    ClosingTexts();
    ClosingRebuilds(path);
    OutcomeIs(root, EIGHT, CLOSING_HUNK, line, path, [EIGHT, "b" + "\n"], r);
    JoinFour([], [], EIGHT, "b" + "\n");
  }
}
