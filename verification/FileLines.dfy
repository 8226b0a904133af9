/** How a file falls into lines: with their newlines, as the edit and the rebuild see it, and
    without, as the matcher does. */
module FileLines {
  import opened Alignment
  import opened ComputeEdit
  import opened Normalise

  /** Every line ends in a newline and holds no other. */
  predicate Finished(l: Line) {
    l != [] && l[|l| - 1] == '\n' && '\n' !in l[..|l| - 1]
  }

  /** A line of a file: finished, or the last one without its newline. */
  predicate Proper(l: Line) { Finished(l) || (l != [] && '\n' !in l) }

  lemma {:induction false} FirstLineOf(l: Line, rest: Line)
    requires Finished(l)
    ensures FirstLine(l + rest) == |l|
  {
    if |l| > 1 {
      assert l[0] in l[..|l| - 1];
      assert (l + rest)[1..] == l[1..] + rest;
      assert l[1..][..|l[1..]| - 1] == l[..|l| - 1][1..];
      FirstLineOf(l[1..], rest);
    }
  }

  lemma {:induction false} OnlyLine(l: Line)
    requires '\n' !in l
    ensures FirstLine(l) == |l|
  {
    if l != [] {
      assert l[0] in l;
      OnlyLine(l[1..]);
    }
  }

  ghost predicate AllProper(ls: seq<Line>) { forall i :: 0 <= i < |ls| ==> Proper(ls[i]) }

  /** Every line but perhaps the last ends in a newline. */
  ghost predicate FinishedInside(ls: seq<Line>) { forall i :: 0 <= i < |ls| - 1 ==> Finished(ls[i]) }

  lemma {:induction false} SplitOfJoined(ls: seq<Line>)
    requires AllProper(ls) && FinishedInside(ls)
    ensures SplitInclusive(JoinLines(ls)) == ls
  {
    if ls != [] {
      var (l, rest) := (ls[0], JoinLines(ls[1..]));
      assert AllProper(ls[1..]) && FinishedInside(ls[1..]);
      SplitOfJoined(ls[1..]);
      if |ls| == 1 {
        assert ls[1..] == [] && l + rest == l;
        if Finished(l) {
          FirstLineOf(l, []);
          assert l + [] == l;
        } else {
          OnlyLine(l);
        }
        assert l[..|l|] == l && l[|l|..] == [];
        assert SplitInclusive([]) == [];
      } else {
        FirstLineOf(l, rest);
        assert (l + rest)[..|l|] == l && (l + rest)[|l|..] == rest;
        assert l + rest != [];
      }
    }
  }

  lemma {:induction false} FirstLineShape(buf: Bytes)
    requires buf != []
    ensures var n := FirstLine(buf); Proper(buf[..n]) && (n < |buf| ==> Finished(buf[..n]))
  {
    if buf[0] != '\n' && |buf| > 1 {
      FirstLineShape(buf[1..]);
      var n := FirstLine(buf);
      assert buf[..n] == [buf[0]] + buf[1..][..n - 1];
      if Finished(buf[1..][..n - 1]) {
        assert buf[..n][..n - 1] == [buf[0]] + buf[1..][..n - 1][..n - 2];
      }
    }
  }

  lemma {:induction false} SplitIsProper(buf: Bytes)
    ensures AllProper(SplitInclusive(buf)) && FinishedInside(SplitInclusive(buf))
    decreases |buf|
  {
    if buf != [] {
      FirstLineShape(buf);
      SplitIsProper(buf[FirstLine(buf)..]);
      var s := SplitInclusive(buf);
      assert s[1..] == SplitInclusive(buf[FirstLine(buf)..]);
      if FirstLine(buf) == |buf| {
        assert s[1..] == [];
      }
    }
  }

  /** The lines that come back out of a joined file are the ones that went in, exactly when
      each but the last has its newline. */
  lemma JoinedLinesIff(ls: seq<Line>)
    requires AllProper(ls)
    ensures SplitInclusive(JoinLines(ls)) == ls <==> FinishedInside(ls)
  {
    if FinishedInside(ls) {
      SplitOfJoined(ls);
    } else {
      SplitIsProper(JoinLines(ls));
    }
  }

  // ---------------------------------------------------------------- joined by newlines

  function JoinNl(ts: seq<Line>): Line {
    if ts == [] then [] else if |ts| == 1 then ts[0] else JoinNl(ts[..|ts| - 1]) + "\n" + ts[|ts| - 1]
  }

  ghost predicate NoNewlines(ts: seq<Line>) { forall i :: 0 <= i < |ts| ==> '\n' !in ts[i] }

  lemma {:induction false} CutMore(x: Line, t: Line)
    requires '\n' !in t
    ensures Cut(x + t) == (Cut(x).0, Cut(x).1 + t)
  {
    if t == [] {
      assert x + t == x && Cut(x).1 + t == Cut(x).1;
    } else {
      var n := |t| - 1;
      assert (x + t)[..|x + t| - 1] == x + t[..n];
      CutMore(x, t[..n]);
      assert t[n] in t;
      assert Cut(x).1 + t[..n] + [t[n]] == Cut(x).1 + t;
    }
  }

  lemma CutNextLine(x: Line, full: seq<Line>, rest: Line, t: Line)
    requires Cut(x) == (full, rest) && '\n' !in t
    ensures Cut(x + "\n" + t) == (full + [rest], t)
  {
    var y := x + "\n";
    assert y[..|y| - 1] == x && y[|y| - 1] == '\n';
    assert Cut(y) == (full + [rest], []);
    CutMore(y, t);
    assert [] + t == t;
  }

  lemma {:induction false} CutOfJoined(ts: seq<Line>)
    requires NoNewlines(ts) && ts != []
    ensures Cut(JoinNl(ts)) == (ts[..|ts| - 1], ts[|ts| - 1])
  {
    var n := |ts| - 1;
    if n == 0 {
      CutMore([], ts[0]);
      assert [] + ts[0] == ts[0];
    } else {
      var front := ts[..n];
      CutOfJoined(front);
      assert front[..n - 1] + [front[n - 1]] == front;
      CutNextLine(JoinNl(front), front[..n - 1], front[n - 1], ts[n]);
    }
  }

  /** A text joined from lines has no more normalised lines than those. */
  lemma JoinedIsAsLong(ts: seq<Line>)
    requires NoNewlines(ts)
    ensures |Normalised(JoinNl(ts))| <= |ts|
  {
    if ts == [] {
      assert Scanned([]) == Scan([], [], false);
    } else {
      CutOfJoined(ts);
      FileIsAsLong(JoinNl(ts));
    }
  }

  function WithNewlines(ts: seq<Line>): (r: seq<Line>)
    ensures |r| == |ts| && forall i :: 0 <= i < |r| ==> r[i] == ts[i] + "\n"
  {
    seq(|ts|, i requires 0 <= i < |ts| => ts[i] + "\n")
  }

  /** The two ways of cutting a file agree. */
  lemma {:induction false} CutIsSplit(buf: Bytes)
    ensures var (full, rest) := Cut(buf);
            && NoNewlines(full) && '\n' !in rest
            && buf == JoinLines(WithNewlines(full)) + rest
  {
    if buf != [] {
      var n := |buf| - 1;
      CutIsSplit(buf[..n]);
      var (full, rest) := Cut(buf[..n]);
      assert buf == buf[..n] + [buf[n]];
      if buf[n] == '\n' {
        assert WithNewlines(full + [rest]) == WithNewlines(full) + [rest + "\n"];
        JoinAppends(WithNewlines(full), [rest + "\n"]);
        JoinOne(rest + "\n");
      }
    }
  }

  lemma JoinOne(l: Line)
    ensures JoinLines([l]) == l
  {
    assert [l][1..] == [];
  }

  function CutLines(full: seq<Line>, rest: Line): seq<Line> {
    WithNewlines(full) + if rest == [] then [] else [rest]
  }

  lemma CutLinesSplit(full: seq<Line>, rest: Line)
    requires NoNewlines(full) && '\n' !in rest
    ensures AllProper(CutLines(full, rest)) && FinishedInside(CutLines(full, rest))
  {
    var ls := CutLines(full, rest);
    forall i | 0 <= i < |full| ensures Finished(ls[i]) {
      assert ls[i] == full[i] + "\n" && ls[i][..|full[i]|] == full[i];
    }
  }

  lemma CutLinesJoin(full: seq<Line>, rest: Line)
    ensures JoinLines(CutLines(full, rest)) == JoinLines(WithNewlines(full)) + rest
  {
    if rest == [] {
      assert CutLines(full, rest) == WithNewlines(full);
    } else {
      JoinAppends(WithNewlines(full), [rest]);
      JoinOne(rest);
    }
  }

  lemma LinesOfCut(buf: Bytes)
    ensures SplitInclusive(buf) == CutLines(Cut(buf).0, Cut(buf).1)
  {
    CutIsSplit(buf);
    CutLinesSplit(Cut(buf).0, Cut(buf).1);
    CutLinesJoin(Cut(buf).0, Cut(buf).1);
    SplitOfJoined(CutLines(Cut(buf).0, Cut(buf).1));
  }

  /** So the matcher's lines index the file's. */
  lemma NormalisedIndexFile(buf: Bytes)
    ensures |Normalised(buf)| <= |SplitInclusive(buf)|
  {
    LinesOfCut(buf);
    FileIsAsLong(buf);
  }
}
