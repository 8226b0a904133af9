/** Rebuilding a file from an alignment with a hunk (crs/common/fuzzy_patch.py, apply_hunk). */
module ApplyHunk {
  import opened Wrappers
  import opened Alignment
  import opened Matcher
  import opened MatcherTheorems

  datatype EditType = Add | Remove | Context
  datatype HunkLine = HunkLine(kind: EditType, text: Line)
  datatype HunkError = AlignFailed(error: AlignError) | FuzzyMismatch | NoMatch | EmptyAlignment

  // Where an output line comes from: line of the original, or line of the hunk.
  datatype Origin = Kept(line: nat) | Added(hunkLine: nat)

  // ---------------------------------------------------------------- what the loop emits

  ghost predicate InRange(orig: seq<Line>, elines: seq<HunkLine>, p: Pair) {
    && (p.0.Some? ==> p.0.value < |orig|)
    && (p.1.Some? ==> p.1.value < |elines|)
  }

  predicate Removes(elines: seq<HunkLine>, p: Pair) {
    p.0.Some? && p.1.Some? && p.1.value < |elines| && elines[p.1.value].kind == Remove
  }

  function OriginOf(elines: seq<HunkLine>, p: Pair): seq<Origin> {
    if Removes(elines, p) then []
    else if p.0.Some? then [Kept(p.0.value)]
    else if p.1.Some? then [Added(p.1.value)]
    else []
  }

  function Origins(elines: seq<HunkLine>, path: seq<Pair>): seq<Origin> {
    if path == [] then [] else Origins(elines, path[..|path| - 1]) + OriginOf(elines, path[|path| - 1])
  }

  function LastOrig(path: seq<Pair>): (r: int)
    ensures r >= -1
  {
    if path == [] then -1
    else if path[|path| - 1].0.Some? then path[|path| - 1].0.value
    else LastOrig(path[..|path| - 1])
  }

  function KeepRange(lo: nat, hi: nat): seq<Origin>
    requires lo <= hi
    decreases hi
  {
    if lo == hi then [] else KeepRange(lo, hi - 1) + [Kept(hi - 1)]
  }

  /** The origin of every line of the rebuilt file.  Slicing up to a missing first line
      takes the whole file. */
  function Layout(n: nat, elines: seq<HunkLine>, path: seq<Pair>): seq<Origin>
    requires path != [] && LastOrig(path) < n
    requires path[0].0.Some? ==> path[0].0.value <= n
  {
    KeepRange(0, if path[0].0.Some? then path[0].0.value else n)
    + Origins(elines, path)
    + KeepRange(LastOrig(path) + 1, n)
  }

  function LineOf(orig: seq<Line>, elines: seq<HunkLine>, o: Origin): Line {
    match o
    case Kept(i) => if i < |orig| then orig[i] else ""
    case Added(k) => if k < |elines| then elines[k].text else ""
  }

  function Render(orig: seq<Line>, elines: seq<HunkLine>, os: seq<Origin>): seq<Line> {
    if os == [] then [] else Render(orig, elines, os[..|os| - 1]) + [LineOf(orig, elines, os[|os| - 1])]
  }

  // ---------------------------------------------------------------- the loop

  lemma {:induction false} RenderAppends(orig: seq<Line>, elines: seq<HunkLine>, a: seq<Origin>, b: seq<Origin>)
    ensures Render(orig, elines, a + b) == Render(orig, elines, a) + Render(orig, elines, b)
  {
    if b == [] {
      assert a + b == a;
    } else {
      assert (a + b)[..|a + b| - 1] == a + b[..|b| - 1];
      RenderAppends(orig, elines, a, b[..|b| - 1]);
    }
  }

  lemma {:induction false} RenderKeepsSlice(orig: seq<Line>, elines: seq<HunkLine>, lo: nat, hi: nat)
    requires lo <= hi <= |orig|
    ensures Render(orig, elines, KeepRange(lo, hi)) == orig[lo..hi]
    decreases hi
  {
    if lo < hi {
      RenderKeepsSlice(orig, elines, lo, hi - 1);
      var r := KeepRange(lo, hi);
      assert r[..|r| - 1] == KeepRange(lo, hi - 1);
    }
  }

  /** What one pair of the alignment adds to the output. */
  function Emitted(orig: seq<Line>, elines: seq<HunkLine>, p: Pair): seq<Line> {
    if Removes(elines, p) then []
    else if p.0.Some? then [LineOf(orig, elines, Kept(p.0.value))]
    else if p.1.Some? then [LineOf(orig, elines, Added(p.1.value))]
    else []
  }

  function EmittedBy(orig: seq<Line>, elines: seq<HunkLine>, path: seq<Pair>): seq<Line> {
    if path == [] then [] else EmittedBy(orig, elines, path[..|path| - 1]) + Emitted(orig, elines, path[|path| - 1])
  }

  /** The rebuilt file: the lines before the alignment, what the alignment emits, the rest. */
  function Rebuilt(orig: seq<Line>, elines: seq<HunkLine>, path: seq<Pair>): seq<Line>
    requires path != [] && LastOrig(path) < |orig|
    requires path[0].0.Some? ==> path[0].0.value <= |orig|
  {
    orig[..if path[0].0.Some? then path[0].0.value else |orig|]
    + EmittedBy(orig, elines, path)
    + orig[LastOrig(path) + 1..]
  }

  lemma {:induction false} EmittedRenders(orig: seq<Line>, elines: seq<HunkLine>, path: seq<Pair>)
    ensures EmittedBy(orig, elines, path) == Render(orig, elines, Origins(elines, path))
  {
    if path != [] {
      var (front, p) := (path[..|path| - 1], path[|path| - 1]);
      EmittedRenders(orig, elines, front);
      RenderAppends(orig, elines, Origins(elines, front), OriginOf(elines, p));
      PairRenders(orig, elines, p);
    }
  }

  lemma RenderOne(orig: seq<Line>, elines: seq<HunkLine>, o: Origin)
    ensures Render(orig, elines, [o]) == [LineOf(orig, elines, o)]
  {
    assert [o][..0] == [];
  }

  lemma PairRenders(orig: seq<Line>, elines: seq<HunkLine>, p: Pair)
    ensures Render(orig, elines, OriginOf(elines, p)) == Emitted(orig, elines, p)
  {
    if OriginOf(elines, p) != [] {
      RenderOne(orig, elines, OriginOf(elines, p)[0]);
    }
  }

  lemma RenderThree(orig: seq<Line>, elines: seq<HunkLine>, a: seq<Origin>, b: seq<Origin>, c: seq<Origin>)
    ensures Render(orig, elines, a + b + c)
         == Render(orig, elines, a) + Render(orig, elines, b) + Render(orig, elines, c)
  {
    RenderAppends(orig, elines, a, b);
    RenderAppends(orig, elines, a + b, c);
  }

  /** The rebuilt file is its layout, line by line. */
  lemma RebuiltRendersLayout(orig: seq<Line>, elines: seq<HunkLine>, path: seq<Pair>)
    requires path != [] && LastOrig(path) < |orig|
    requires path[0].0.Some? ==> path[0].0.value <= |orig|
    ensures Rebuilt(orig, elines, path) == Render(orig, elines, Layout(|orig|, elines, path))
  {
    var first := if path[0].0.Some? then path[0].0.value else |orig|;
    var after := LastOrig(path) + 1;
    RenderKeepsSlice(orig, elines, 0, first);
    RenderKeepsSlice(orig, elines, after, |orig|);
    EmittedRenders(orig, elines, path);
    RenderParts(orig, elines, KeepRange(0, first), Origins(elines, path), KeepRange(after, |orig|),
                orig[0..first], EmittedBy(orig, elines, path), orig[after..|orig|]);
    WholeSlices(orig, first, after);
  }

  lemma WholeSlices<T>(s: seq<T>, first: nat, after: nat)
    requires first <= |s| && after <= |s|
    ensures s[0..first] == s[..first] && s[after..|s|] == s[after..]
  {
  }

  lemma RenderParts(orig: seq<Line>, elines: seq<HunkLine>, a: seq<Origin>, b: seq<Origin>, c: seq<Origin>,
                    x: seq<Line>, y: seq<Line>, z: seq<Line>)
    requires Render(orig, elines, a) == x && Render(orig, elines, b) == y && Render(orig, elines, c) == z
    ensures Render(orig, elines, a + b + c) == x + y + z
  {
    RenderThree(orig, elines, a, b, c);
  }

  // The same two functions on a growing prefix, as the loop computes them.
  function EmittedTo(orig: seq<Line>, elines: seq<HunkLine>, path: seq<Pair>, k: nat): seq<Line>
    requires k <= |path|
  {
    if k == 0 then [] else EmittedTo(orig, elines, path, k - 1) + Emitted(orig, elines, path[k - 1])
  }

  function LastOrigTo(path: seq<Pair>, k: nat): int
    requires k <= |path|
  {
    if k == 0 then -1 else if path[k - 1].0.Some? then path[k - 1].0.value else LastOrigTo(path, k - 1)
  }

  lemma {:induction false} PrefixIsWhole(orig: seq<Line>, elines: seq<HunkLine>, path: seq<Pair>, k: nat)
    requires k <= |path|
    ensures EmittedTo(orig, elines, path, k) == EmittedBy(orig, elines, path[..k])
    ensures LastOrigTo(path, k) == LastOrig(path[..k])
  {
    if k > 0 {
      PrefixIsWhole(orig, elines, path, k - 1);
      assert path[..k][..k - 1] == path[..k - 1];
    }
  }

  lemma LastOrigInRange(orig: seq<Line>, elines: seq<HunkLine>, path: seq<Pair>)
    requires forall p :: p in path ==> InRange(orig, elines, p)
    ensures LastOrig(path) < |orig|
  {
    if path != [] {
      assert InRange(orig, elines, path[|path| - 1]);
    }
  }

  /** What the rebuild makes of an alignment: the file, or an error. */
  ghost predicate RebuiltAs(orig: seq<Line>, elines: seq<HunkLine>, path: seq<Pair>, r: Result<seq<Line>, HunkError>) {
    if path == [] then r == Err(EmptyAlignment)
    else if LastOrig(path) == -1 && orig != [] then r == Err(NoMatch)
    else
      && LastOrig(path) < |orig| && (path[0].0.Some? ==> path[0].0.value < |orig|)
      && r == Ok(Rebuilt(orig, elines, path))
  }

  method Rebuild(orig: seq<Line>, elines: seq<HunkLine>, path: seq<Pair>) returns (r: Result<seq<Line>, HunkError>)
    requires forall p :: p in path ==> InRange(orig, elines, p)
    ensures RebuiltAs(orig, elines, path, r)
  {
    if path == [] {
      return Err(EmptyAlignment);
    }
    assert InRange(orig, elines, path[0]);
    var first := if path[0].0.Some? then path[0].0.value else |orig|;
    var emitted, lastOrigLine := Emit(orig, elines, path);
    LastOrigInRange(orig, elines, path);
    if lastOrigLine == -1 && |orig| > 0 {
      return Err(NoMatch);
    }
    r := Ok(orig[0..first] + emitted + orig[lastOrigLine + 1..]);
  }

  /** What the aligned pairs put into the new file, and the last original line among them. */
  method Emit(orig: seq<Line>, elines: seq<HunkLine>, path: seq<Pair>)
    returns (newLines: seq<Line>, lastOrigLine: int)
    requires forall p :: p in path ==> InRange(orig, elines, p)
    ensures newLines == EmittedBy(orig, elines, path) && lastOrigLine == LastOrig(path)
  {
    newLines, lastOrigLine := [], -1;
    for k := 0 to |path|
      invariant lastOrigLine == LastOrigTo(path, k)
      invariant newLines == EmittedTo(orig, elines, path, k)
    {
      var (origLine, patchLine) := path[k];
      assert InRange(orig, elines, path[k]);
      if origLine.Some? {
        lastOrigLine := origLine.value;
        if patchLine.Some? && elines[patchLine.value].kind == Remove {
          continue;
        }
        newLines := newLines + [orig[origLine.value]];
      } else if patchLine.Some? {
        newLines := newLines + [elines[patchLine.value].text];
      }
    }
    PrefixIsWhole(orig, elines, path, |path|);
    assert path[..|path|] == path;
  }

  function WholeHunk(n: nat): (r: seq<Pair>)
    ensures |r| == n && forall k :: 0 <= k < n ==> r[k] == (None, Some(k))
  {
    seq(n, k requires 0 <= k < n => (None, Some(k)))
  }

  /** The sanity check of every aligned pair; `fuzzyOk` decides one pair. */
  method CheckPairs(orig: seq<Line>, elines: seq<HunkLine>, path: seq<Pair>,
                    fuzzyOk: (Option<Line>, Option<Line>) -> bool)
    returns (ok: bool)
    requires forall p :: p in path ==> InRange(orig, elines, p)
    ensures ok <==> PairsOk(orig, elines, fuzzyOk, path)
  {
    for k := 0 to |path|
      invariant forall j :: 0 <= j < k ==> PairOk(orig, elines, fuzzyOk, path[j])
    {
      assert InRange(orig, elines, path[k]);
      if !PairOk(orig, elines, fuzzyOk, path[k]) {
        return false;
      }
    }
    return true;
  }

  predicate PairOk(orig: seq<Line>, elines: seq<HunkLine>, fuzzyOk: (Option<Line>, Option<Line>) -> bool, p: Pair) {
    fuzzyOk(if p.0.Some? && p.0.value < |orig| then Some(orig[p.0.value]) else None,
            if p.1.Some? && p.1.value < |elines| then Some(HunkText(elines[p.1.value])) else None)
  }

  ghost predicate PairsOk(orig: seq<Line>, elines: seq<HunkLine>, fuzzyOk: (Option<Line>, Option<Line>) -> bool,
                          path: seq<Pair>) {
    forall p :: p in path ==> PairOk(orig, elines, fuzzyOk, p)
  }

  /** The alignment of a hunk: the matcher's, or the whole hunk where there is no line to match. */
  ghost predicate AlignedAs(score: Scorer, orig: seq<Line>, s1: seq<Line>, elines: seq<HunkLine>, s2: seq<Line>,
                            est: Option<nat>, a: Result<seq<Pair>, AlignError>) {
    if orig == [] then a == Ok(WholeHunk(|elines|)) else Matched(score, s1, s2, est, a)
  }

  /** The outcome of applying a hunk whose alignment is `a`. */
  ghost predicate AppliedAs(orig: seq<Line>, elines: seq<HunkLine>, fuzzyOk: (Option<Line>, Option<Line>) -> bool,
                            a: Result<seq<Pair>, AlignError>, r: Result<seq<Line>, HunkError>) {
    if a.Err? then r == Err(AlignFailed(a.error))
    else if !PairsOk(orig, elines, fuzzyOk, a.value) then r == Err(FuzzyMismatch)
    else RebuiltAs(orig, elines, a.value, r)
  }

  /** The hunk against a whole file.  `s1` and `s2` are the normalised lines of the file and
      of the hunk; normalising drops at most a blank last line. */
  method Apply(score: Scorer, orig: seq<Line>, s1: seq<Line>, elines: seq<HunkLine>, s2: seq<Line>,
               est: Option<nat>, fuzzyOk: (Option<Line>, Option<Line>) -> bool)
    returns (r: Result<seq<Line>, HunkError>)
    requires |s1| <= |orig| && |s2| <= |elines|
    ensures exists a :: AlignedAs(score, orig, s1, elines, s2, est, a) && AppliedAs(orig, elines, fuzzyOk, a, r)
  {
    var arange: seq<Pair>;
    if |orig| == 0 {
      arange := WholeHunk(|elines|);
    } else {
      var aligned := SwAlign(score, s1, s2, est);
      if aligned.Err? {
        r := Err(AlignFailed(aligned.error));
        assert AppliedAs(orig, elines, fuzzyOk, aligned, r);
        return;
      }
      arange := aligned.value;
      ghost var start, end := MatchAligns(score, s1, s2, est, arange);
      AlignedInRange(orig, s1, elines, s2, arange, start, end);
    }
    ghost var a: Result<seq<Pair>, AlignError> := Ok(arange);
    assert AlignedAs(score, orig, s1, elines, s2, est, a);
    var ok := CheckPairs(orig, elines, arange, fuzzyOk);
    if !ok {
      r := Err(FuzzyMismatch);
    } else {
      r := Rebuild(orig, elines, arange);
    }
    assert AppliedAs(orig, elines, fuzzyOk, a, r);
  }

  function HunkText(l: HunkLine): Line {
    if l.kind == Add then NEW_SENTINEL else l.text
  }

  lemma {:induction false} AlignedInRange(orig: seq<Line>, s1: seq<Line>, elines: seq<HunkLine>, s2: seq<Line>,
                                          path: seq<Pair>, start: Pos, end: Pos)
    requires |s1| <= |orig| && |s2| <= |elines| && Aligns(s1, s2, path, start, end)
    ensures forall p :: p in path ==> InRange(orig, elines, p)
    decreases |path|
  {
    if path != [] {
      var front := path[..|path| - 1];
      assert path == front + [path[|path| - 1]];
      match path[|path| - 1]
      case (Some(i), Some(j)) => AlignedInRange(orig, s1, elines, s2, front, start, Pos(i, j));
      case (Some(i), None) => AlignedInRange(orig, s1, elines, s2, front, start, Pos(i, end.col));
      case (None, Some(j)) => AlignedInRange(orig, s1, elines, s2, front, start, Pos(end.row, j));
    }
  }

  lemma {:induction false} WholeHunkPrefix(elines: seq<HunkLine>, n: nat)
    requires n <= |elines|
    ensures LastOrig(WholeHunk(n)) == -1
    ensures var r := EmittedBy([], elines, WholeHunk(n));
            |r| == n && forall k :: 0 <= k < n ==> r[k] == elines[k].text
  {
    if n > 0 {
      WholeHunkPrefix(elines, n - 1);
      assert WholeHunk(n)[..n - 1] == WholeHunk(n - 1);
    }
  }

  lemma RebuiltFromNothing(elines: seq<HunkLine>, path: seq<Pair>)
    requires path != [] && path[0].0.None? && LastOrig(path) == -1
    ensures Rebuilt([], elines, path) == EmittedBy([], elines, path)
  {
    NothingAround([], EmittedBy([], elines, path));
  }

  lemma NothingAround<T>(nothing: seq<T>, s: seq<T>)
    requires nothing == []
    ensures nothing[..0] + s + nothing[0..] == s
  {
  }

  /** Into an empty file goes every line of the hunk, whatever its kind, and nothing else. */
  lemma EmptyFileTakesWholeHunk(elines: seq<HunkLine>, r: seq<Line>)
    requires elines != []
    ensures RebuiltAs([], elines, WholeHunk(|elines|), Ok(r)) <==>
            |r| == |elines| && forall k :: 0 <= k < |r| ==> r[k] == elines[k].text
  {
    var path := WholeHunk(|elines|);
    WholeHunkPrefix(elines, |elines|);
    assert path[0] == (None, Some(0));
    RebuiltFromNothing(elines, path);
    var e := EmittedBy([], elines, path);
    assert r == e <==> |r| == |e| && forall k :: 0 <= k < |r| ==> r[k] == e[k];
  }
}
