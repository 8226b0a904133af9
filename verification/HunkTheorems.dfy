/** What apply_hunk does to a file: which lines it removes, keeps and adds. */
module HunkTheorems {
  import opened Wrappers
  import opened Alignment
  import opened ApplyHunk
  import opened MatcherTheorems

  /** The original lines aligned to a '-' line. */
  function Deleted(elines: seq<HunkLine>, path: seq<Pair>): set<nat> {
    if path == [] then {}
    else
      var p := path[|path| - 1];
      Deleted(elines, path[..|path| - 1]) + (if Removes(elines, p) then {p.0.value} else {})
  }

  /** The hunk lines aligned to no original line. */
  function Inserted(path: seq<Pair>): seq<nat> {
    if path == [] then []
    else
      var p := path[|path| - 1];
      Inserted(path[..|path| - 1]) + (if p.0.None? && p.1.Some? then [p.1.value] else [])
  }

  /** The original lines the aligned stretch keeps. */
  function Retained(elines: seq<HunkLine>, path: seq<Pair>): seq<nat> {
    if path == [] then []
    else
      var p := path[|path| - 1];
      Retained(elines, path[..|path| - 1]) + (if p.0.Some? && !Removes(elines, p) then [p.0.value] else [])
  }

  function KeptLines(os: seq<Origin>): seq<nat> {
    if os == [] then []
    else
      var o := os[|os| - 1];
      KeptLines(os[..|os| - 1]) + (if o.Kept? then [o.line] else [])
  }

  function AddedLines(os: seq<Origin>): seq<nat> {
    if os == [] then []
    else
      var o := os[|os| - 1];
      AddedLines(os[..|os| - 1]) + (if o.Added? then [o.hunkLine] else [])
  }

  /** Lines lo, ..., hi - 1 in order, without those in `gone`. */
  function Survivors(lo: nat, hi: nat, gone: set<nat>): (r: seq<nat>)
    requires lo <= hi
    ensures |r| <= hi - lo
    decreases hi
  {
    if lo == hi then [] else Survivors(lo, hi - 1, gone) + (if hi - 1 in gone then [] else [hi - 1])
  }

  // ---------------------------------------------------------------- plumbing

  lemma {:induction false} KeptAppends(a: seq<Origin>, b: seq<Origin>)
    ensures KeptLines(a + b) == KeptLines(a) + KeptLines(b)
  {
    if b == [] {
      assert a + b == a;
    } else {
      assert (a + b)[..|a + b| - 1] == a + b[..|b| - 1];
      KeptAppends(a, b[..|b| - 1]);
    }
  }

  lemma {:induction false} AddedAppends(a: seq<Origin>, b: seq<Origin>)
    ensures AddedLines(a + b) == AddedLines(a) + AddedLines(b)
  {
    if b == [] {
      assert a + b == a;
    } else {
      assert (a + b)[..|a + b| - 1] == a + b[..|b| - 1];
      AddedAppends(a, b[..|b| - 1]);
    }
  }

  lemma OneMoreOrigin(os: seq<Origin>, o: Origin)
    ensures KeptLines(os + [o]) == KeptLines(os) + if o.Kept? then [o.line] else []
    ensures AddedLines(os + [o]) == AddedLines(os) + if o.Added? then [o.hunkLine] else []
  {
    assert (os + [o])[..|os|] == os;
  }

  lemma {:induction false} KeepRangeKeepsAll(lo: nat, hi: nat, gone: set<nat>)
    requires lo <= hi && forall d :: d in gone ==> !(lo <= d < hi)
    ensures KeptLines(KeepRange(lo, hi)) == Survivors(lo, hi, gone) && |Survivors(lo, hi, gone)| == hi - lo
    decreases hi
  {
    if lo < hi {
      KeepRangeKeepsAll(lo, hi - 1, gone);
      var front := KeepRange(lo, hi - 1);
      OneMoreOrigin(front, Kept(hi - 1));
      assert KeepRange(lo, hi) == front + [Kept(hi - 1)];
      assert Survivors(lo, hi, gone) == Survivors(lo, hi - 1, gone) + [hi - 1];
    }
  }

  lemma {:induction false} KeepRangeAddsNone(lo: nat, hi: nat)
    requires lo <= hi
    ensures AddedLines(KeepRange(lo, hi)) == []
    decreases hi
  {
    if lo < hi {
      KeepRangeAddsNone(lo, hi - 1);
      OneMoreOrigin(KeepRange(lo, hi - 1), Kept(hi - 1));
    }
  }

  lemma {:induction false} SurvivorsSplit(lo: nat, mid: nat, hi: nat, gone: set<nat>)
    requires lo <= mid <= hi
    ensures Survivors(lo, hi, gone) == Survivors(lo, mid, gone) + Survivors(mid, hi, gone)
    decreases hi
  {
    if mid < hi {
      SurvivorsSplit(lo, mid, hi - 1, gone);
    }
  }

  lemma {:induction false} SurvivorsIgnore(lo: nat, hi: nat, gone: set<nat>, d: nat)
    requires lo <= hi <= d
    ensures Survivors(lo, hi, gone + {d}) == Survivors(lo, hi, gone)
    decreases hi
  {
    if lo < hi {
      SurvivorsIgnore(lo, hi - 1, gone, d);
    }
  }

  lemma {:induction false} AddedAreInserted(elines: seq<HunkLine>, path: seq<Pair>)
    ensures AddedLines(Origins(elines, path)) == Inserted(path)
  {
    if path != [] {
      var (front, p) := (path[..|path| - 1], path[|path| - 1]);
      AddedAreInserted(elines, front);
      AddedAppends(Origins(elines, front), OriginOf(elines, p));
    }
  }

  lemma {:induction false} KeptAreRetained(elines: seq<HunkLine>, path: seq<Pair>)
    ensures KeptLines(Origins(elines, path)) == Retained(elines, path)
  {
    if path != [] {
      var (front, p) := (path[..|path| - 1], path[|path| - 1]);
      KeptAreRetained(elines, front);
      KeptAppends(Origins(elines, front), OriginOf(elines, p));
    }
  }

  // ---------------------------------------------------------------- along an alignment

  /** The cell before the last pair of an alignment. */
  function Previous(path: seq<Pair>, end: Pos): Pos
    requires path != []
  {
    var p := path[|path| - 1];
    Pos(if p.0.Some? then p.0.value else end.row, if p.1.Some? then p.1.value else end.col)
  }

  lemma {:induction false} DeletedInStretch(s1: seq<Line>, s2: seq<Line>, elines: seq<HunkLine>,
                                            path: seq<Pair>, start: Pos, end: Pos)
    requires Aligns(s1, s2, path, start, end)
    ensures start.row <= end.row <= |s1|
    ensures forall d :: d in Deleted(elines, path) ==> start.row <= d < end.row
    ensures LastOrig(path) == if start.row < end.row then end.row - 1 else -1
    decreases |path|
  {
    if path != [] {
      DeletedInStretch(s1, s2, elines, path[..|path| - 1], start, Previous(path, end));
    }
  }

  lemma SurvivorsExtend(lo: nat, row: nat, before: set<nat>, removed: bool)
    requires lo <= row && forall d :: d in before ==> d < row
    ensures Survivors(lo, row + 1, before + if removed then {row} else {})
         == Survivors(lo, row, before) + if removed then [] else [row]
  {
    if removed {
      SurvivorsIgnore(lo, row, before, row);
    } else {
      assert before + {} == before;
    }
  }

  /** The aligned stretch keeps its original lines in order, the removed ones excepted. */
  lemma {:induction false} AlignedStretch(s1: seq<Line>, s2: seq<Line>, elines: seq<HunkLine>,
                                          path: seq<Pair>, start: Pos, end: Pos)
    requires Aligns(s1, s2, path, start, end)
    ensures start.row <= end.row <= |s1|
    ensures Retained(elines, path) == Survivors(start.row, end.row, Deleted(elines, path))
    decreases |path|
  {
    DeletedInStretch(s1, s2, elines, path, start, end);
    if path != [] {
      var (front, p, prev) := (path[..|path| - 1], path[|path| - 1], Previous(path, end));
      AlignedStretch(s1, s2, elines, front, start, prev);
      if p.0.Some? {
        DeletedInStretch(s1, s2, elines, front, start, prev);
        SurvivorsExtend(start.row, prev.row, Deleted(elines, front), Removes(elines, p));
      } else {
        assert Deleted(elines, path) == Deleted(elines, front);
      }
    }
  }

  lemma {:induction false} FirstIsStart(s1: seq<Line>, s2: seq<Line>, path: seq<Pair>, start: Pos, end: Pos)
    requires Aligns(s1, s2, path, start, end) && path != [] && path[0].0.Some?
    ensures path[0].0.value == start.row && start.row < end.row
    decreases |path|
  {
    var (front, p) := (path[..|path| - 1], path[|path| - 1]);
    if front != [] {
      FirstIsStart(s1, s2, front, start, Previous(path, end));
    }
  }

  lemma KeptThree(a: seq<Origin>, b: seq<Origin>, c: seq<Origin>)
    ensures KeptLines(a + b + c) == KeptLines(a) + KeptLines(b) + KeptLines(c)
  {
    KeptAppends(a + b, c);
    KeptAppends(a, b);
  }

  lemma AddedThree(a: seq<Origin>, b: seq<Origin>, c: seq<Origin>)
    requires AddedLines(a) == [] && AddedLines(c) == []
    ensures AddedLines(a + b + c) == AddedLines(b)
  {
    AddedAppends(a + b, c);
    AddedAppends(a, b);
  }

  lemma LayoutAdds(n: nat, elines: seq<HunkLine>, path: seq<Pair>)
    requires path != [] && LastOrig(path) < n && (path[0].0.Some? ==> path[0].0.value <= n)
    ensures AddedLines(Layout(n, elines, path)) == Inserted(path)
  {
    var first := if path[0].0.Some? then path[0].0.value else n;
    var (a, b, c) := (KeepRange(0, first), Origins(elines, path), KeepRange(LastOrig(path) + 1, n));
    calc {
      AddedLines(Layout(n, elines, path));
      AddedLines(a + b + c);
      { KeepRangeAddsNone(0, first); KeepRangeAddsNone(LastOrig(path) + 1, n); AddedThree(a, b, c); }
      AddedLines(b);
      { AddedAreInserted(elines, path); }
      Inserted(path);
    }
  }

  lemma LayoutKeeps(n: nat, elines: seq<HunkLine>, path: seq<Pair>, first: nat, after: nat)
    requires path != [] && after == LastOrig(path) + 1 <= n
    requires first == (if path[0].0.Some? then path[0].0.value else n) && first <= n
    ensures KeptLines(Layout(n, elines, path))
         == KeptLines(KeepRange(0, first)) + Retained(elines, path) + KeptLines(KeepRange(after, n))
  {
    KeptThree(KeepRange(0, first), Origins(elines, path), KeepRange(after, n));
    KeptAreRetained(elines, path);
  }

  lemma SurvivorsThree(a: nat, b: nat, c: nat, gone: set<nat>)
    requires a <= b <= c
    ensures Survivors(0, c, gone) == Survivors(0, a, gone) + Survivors(a, b, gone) + Survivors(b, c, gone)
  {
    SurvivorsSplit(0, a, b, gone);
    SurvivorsSplit(0, b, c, gone);
  }

  // ---------------------------------------------------------------- the theorems

  /** An alignment that starts on an original line removes exactly the original lines aligned
      to '-' lines, keeps every other one once and in order, and adds exactly the hunk lines
      aligned to no original line. */
  lemma AnchoredHunk(orig: seq<Line>, s1: seq<Line>, elines: seq<HunkLine>, s2: seq<Line>,
                     path: seq<Pair>, start: Pos, end: Pos)
    requires |s1| <= |orig| && Aligns(s1, s2, path, start, end) && path != [] && path[0].0.Some?
    ensures LastOrig(path) < |orig| && path[0].0.value <= |orig|
    ensures KeptLines(Layout(|orig|, elines, path)) == Survivors(0, |orig|, Deleted(elines, path))
    ensures AddedLines(Layout(|orig|, elines, path)) == Inserted(path)
  {
    var (n, gone) := (|orig|, Deleted(elines, path));
    FirstIsStart(s1, s2, path, start, end);
    DeletedInStretch(s1, s2, elines, path, start, end);
    LayoutAdds(n, elines, path);
    calc {
      KeptLines(Layout(n, elines, path));
      { LayoutKeeps(n, elines, path, start.row, end.row); }
      KeptLines(KeepRange(0, start.row)) + Retained(elines, path) + KeptLines(KeepRange(end.row, n));
      { KeepRangeKeepsAll(0, start.row, gone); KeepRangeKeepsAll(end.row, n, gone); }
      Survivors(0, start.row, gone) + Retained(elines, path) + Survivors(end.row, n, gone);
      { AlignedStretch(s1, s2, elines, path, start, end); }
      Survivors(0, start.row, gone) + Survivors(start.row, end.row, gone) + Survivors(end.row, n, gone);
      { SurvivorsThree(start.row, end.row, n, gone); }
      Survivors(0, n, gone);
    }
  }

  /** The original lines come out once and in order exactly when the alignment starts on an
      original line: one that starts with an inserted line copies the whole file first. */
  lemma HunkKeepsFileIffAnchored(orig: seq<Line>, s1: seq<Line>, elines: seq<HunkLine>, s2: seq<Line>,
                                 path: seq<Pair>, start: Pos, end: Pos)
    requires |s1| <= |orig| && Aligns(s1, s2, path, start, end) && path != [] && LastOrig(path) >= 0
    ensures LastOrig(path) < |orig| && (path[0].0.Some? ==> path[0].0.value <= |orig|)
    ensures KeptLines(Layout(|orig|, elines, path)) == Survivors(0, |orig|, Deleted(elines, path))
            <==> path[0].0.Some?
  {
    DeletedInStretch(s1, s2, elines, path, start, end);
    if path[0].0.Some? {
      AnchoredHunk(orig, s1, elines, s2, path, start, end);
    } else {
      UnanchoredIsLonger(orig, s1, elines, s2, path, start, end);
    }
  }

  lemma UnanchoredIsLonger(orig: seq<Line>, s1: seq<Line>, elines: seq<HunkLine>, s2: seq<Line>,
                           path: seq<Pair>, start: Pos, end: Pos)
    requires |s1| <= |orig| && Aligns(s1, s2, path, start, end)
    requires path != [] && 0 <= LastOrig(path) < |orig| && path[0].0.None?
    ensures |KeptLines(Layout(|orig|, elines, path))| > |Survivors(0, |orig|, Deleted(elines, path))|
  {
    var (n, gone) := (|orig|, Deleted(elines, path));
    DeletedInStretch(s1, s2, elines, path, start, end);
    AlignedStretch(s1, s2, elines, path, start, end);
    calc {
      |KeptLines(Layout(n, elines, path))|;
      { LayoutKeeps(n, elines, path, n, end.row); }
      |KeptLines(KeepRange(0, n))| + |Retained(elines, path)| + |KeptLines(KeepRange(end.row, n))|;
      { KeepRangeKeepsAll(0, n, {}); KeepRangeKeepsAll(end.row, n, {}); }
      n + |Survivors(start.row, end.row, gone)| + (n - end.row);
    }
    SurvivorsThree(start.row, end.row, n, gone);
  }

  /** End to end: a hunk that applies renders the lines of its layout; it adds exactly the hunk
      lines aligned to no original line, and keeps the original lines, less those aligned to a
      '-' line, once and in order exactly when the alignment starts on an original line. */
  lemma AppliedHunk(score: Scorer, orig: seq<Line>, s1: seq<Line>, elines: seq<HunkLine>, s2: seq<Line>,
                    est: Option<nat>, fuzzyOk: (Option<Line>, Option<Line>) -> bool, path: seq<Pair>, new_: seq<Line>)
    requires |s1| <= |orig| && |s2| <= |elines| && orig != []
    requires AlignedAs(score, orig, s1, elines, s2, est, Ok(path))
    requires AppliedAs(orig, elines, fuzzyOk, Ok(path), Ok(new_))
    ensures path != [] && LastOrig(path) < |orig| && (path[0].0.Some? ==> path[0].0.value < |orig|)
    ensures PairsOk(orig, elines, fuzzyOk, path)
    ensures new_ == Render(orig, elines, Layout(|orig|, elines, path))
    ensures AddedLines(Layout(|orig|, elines, path)) == Inserted(path)
    ensures KeptLines(Layout(|orig|, elines, path)) == Survivors(0, |orig|, Deleted(elines, path))
            <==> path[0].0.Some?
  {
    var start, end := MatchAligns(score, s1, s2, est, path);
    RebuiltRendersLayout(orig, elines, path);
    LayoutAdds(|orig|, elines, path);
    HunkKeepsFileIffAnchored(orig, s1, elines, s2, path, start, end);
  }
}
