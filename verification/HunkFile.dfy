/** apply_hunk on the bytes of a file, with the matcher's own line score and pair check
    (crs/common/fuzzy_patch.py:342-381). */
module HunkFile {
  import opened Wrappers
  import opened Alignment
  import opened ApplyHunk
  import opened ComputeEdit
  import opened FileLines
  import opened FuzzyCheck
  import opened HunkTheorems
  import opened LineScore
  import opened MatcherTheorems
  import opened Normalise

  // ---------------------------------------------------------------- the hunk's lines

  /** The hunk's lines hold no newline. */
  ghost predicate LineHunk(elines: seq<HunkLine>) {
    forall k :: 0 <= k < |elines| ==> '\n' !in elines[k].text
  }

  /** What the matcher is given for the hunk, before normalising. */
  function HunkTexts(elines: seq<HunkLine>): (ts: seq<Line>)
    ensures |ts| == |elines| && forall k :: 0 <= k < |ts| ==> ts[k] == HunkText(elines[k])
  {
    seq(|elines|, k requires 0 <= k < |elines| => HunkText(elines[k]))
  }

  /** The hunk's lines as they go into the file. */
  function Terminated(elines: seq<HunkLine>): (r: seq<HunkLine>)
    ensures |r| == |elines|
    ensures forall k :: 0 <= k < |r| ==> r[k] == HunkLine(elines[k].kind, elines[k].text + "\n")
  {
    seq(|elines|, k requires 0 <= k < |elines| => HunkLine(elines[k].kind, elines[k].text + "\n"))
  }

  function Chomp(l: Option<Line>): Option<Line> {
    if l.Some? && l.value != [] && l.value[|l.value| - 1] == '\n' then Some(l.value[..|l.value| - 1]) else l
  }

  /** The pair check looks at lines without their newlines. */
  function PairCheck(): (Option<Line>, Option<Line>) -> bool {
    (o, n) => FuzzyOk(Chomp(o), Chomp(n))
  }

  lemma TextsAreLines(elines: seq<HunkLine>)
    requires LineHunk(elines)
    ensures NoNewlines(HunkTexts(elines))
  {
    forall k | 0 <= k < |elines| ensures '\n' !in HunkTexts(elines)[k] {
      assert NEW_SENTINEL == ['+', '~', 'N', 'E', 'W', '~', '+'];
    }
  }

  // ---------------------------------------------------------------- apply_hunk

  ghost predicate AlignedFile(root: Root, buf: Bytes, elines: seq<HunkLine>, line: nat,
                              a: Result<seq<Pair>, AlignError>)
  {
    AlignedAs(Scored(root), SplitInclusive(buf), Normalised(buf), Terminated(elines),
              Normalised(JoinNl(HunkTexts(elines))), Some(line), a)
  }

  /** The new bytes, or an error, that the alignment `a` leads to. */
  ghost predicate AppliedFile(buf: Bytes, elines: seq<HunkLine>, a: Result<seq<Pair>, AlignError>,
                              r: Result<Bytes, HunkError>) {
    if r.Err? then AppliedAs(SplitInclusive(buf), Terminated(elines), PairCheck(), a, Err(r.error))
    else
      a.Ok? && a.value != [] && LastOrig(a.value) < |SplitInclusive(buf)|
      && (a.value[0].0.Some? ==> a.value[0].0.value < |SplitInclusive(buf)|)
      && var ls := Rebuilt(SplitInclusive(buf), Terminated(elines), a.value);
         r.value == JoinLines(ls) && AppliedAs(SplitInclusive(buf), Terminated(elines), PairCheck(), a, Ok(ls))
  }

  ghost predicate Outcome(root: Root, buf: Bytes, elines: seq<HunkLine>, line: nat, r: Result<Bytes, HunkError>) {
    exists a :: AlignedFile(root, buf, elines, line, a) && AppliedFile(buf, elines, a, r)
  }

  lemma OutcomeOf(root: Root, buf: Bytes, elines: seq<HunkLine>, line: nat,
                  lines: Result<seq<Line>, HunkError>, r: Result<Bytes, HunkError>)
    requires exists a ::
      AlignedFile(root, buf, elines, line, a)
      && AppliedAs(SplitInclusive(buf), Terminated(elines), PairCheck(), a, lines)
    requires r == if lines.Ok? then Ok(JoinLines(lines.value)) else Err(lines.error)
    ensures Outcome(root, buf, elines, line, r)
  {
    var a :| AlignedFile(root, buf, elines, line, a)
             && AppliedAs(SplitInclusive(buf), Terminated(elines), PairCheck(), a, lines);
    assert AppliedFile(buf, elines, a, r);
  }

  method ApplyToFile(root: Root, buf: Bytes, elines: seq<HunkLine>, line: nat) returns (r: Result<Bytes, HunkError>)
    requires LineHunk(elines)
    ensures Outcome(root, buf, elines, line, r)
  {
    TextsAreLines(elines);
    NormalisedIndexFile(buf);
    JoinedIsAsLong(HunkTexts(elines));
    var orig := SplitInclusive(buf);
    var nl := Terminated(elines);
    var s1 := SplitAndNorm(buf);
    var s2 := SplitAndNorm(JoinNl(HunkTexts(elines)));
    var lines := Apply(Scored(root), orig, s1, nl, s2, Some(line), PairCheck());
    r := if lines.Ok? then Ok(JoinLines(lines.value)) else Err(lines.error);
    OutcomeOf(root, buf, elines, line, lines, r);
  }

  /** A hunk that applies: `path` is its alignment, `new_` the new file. */
  ghost predicate Applies(root: Root, buf: Bytes, elines: seq<HunkLine>, line: nat, path: seq<Pair>, new_: Bytes) {
    AlignedFile(root, buf, elines, line, Ok(path)) && AppliedFile(buf, elines, Ok(path), Ok(new_))
  }

  /** The new file joins the lines of its layout; it adds exactly the hunk lines aligned to no
      line of the file, and keeps the file's lines, less those aligned to a '-' line, once and
      in order exactly when the alignment starts on one of them. */
  ghost predicate KeepsFile(buf: Bytes, elines: seq<HunkLine>, path: seq<Pair>, new_: Bytes) {
    var (n, nl) := (|SplitInclusive(buf)|, Terminated(elines));
    && path != [] && LastOrig(path) < n && (path[0].0.Some? ==> path[0].0.value < n)
    && new_ == JoinLines(Render(SplitInclusive(buf), nl, Layout(n, nl, path)))
    && AddedLines(Layout(n, nl, path)) == Inserted(path)
    && (KeptLines(Layout(n, nl, path)) == Survivors(0, n, Deleted(nl, path)) <==> path[0].0.Some?)
  }

  /** End to end on bytes. */
  lemma AppliedHunkFile(root: Root, buf: Bytes, elines: seq<HunkLine>, line: nat, path: seq<Pair>, new_: Bytes)
    requires LineHunk(elines) && buf != []
    ensures Applies(root, buf, elines, line, path, new_) ==> KeepsFile(buf, elines, path, new_)
  {
    TextsAreLines(elines);
    NormalisedIndexFile(buf);
    JoinedIsAsLong(HunkTexts(elines));
    if Applies(root, buf, elines, line, path, new_) {
      var (orig, nl) := (SplitInclusive(buf), Terminated(elines));
      AppliedHunk(Scored(root), orig, Normalised(buf), nl, Normalised(JoinNl(HunkTexts(elines))), Some(line),
                  PairCheck(), path, Rebuilt(orig, nl, path));
    }
  }

  // ---------------------------------------------------------------- the last line

  /** An origin names a line of the file or of the hunk. */
  predicate Names(n: nat, m: nat, o: Origin) {
    match o
    case Kept(k) => k < n
    case Added(k) => k < m
  }

  ghost predicate Named(n: nat, m: nat, os: seq<Origin>) {
    forall i :: 0 <= i < |os| ==> Names(n, m, os[i])
  }

  /** The file's last line, which has no newline. */
  predicate Unfinished(buf: Bytes, o: Origin) {
    buf != [] && buf[|buf| - 1] != '\n' && o == Kept(|SplitInclusive(buf)| - 1)
  }

  /** The file's last line has no newline, and something comes after it. */
  ghost predicate RunsOn(buf: Bytes, os: seq<Origin>) {
    exists i :: 0 <= i < |os| - 1 && Unfinished(buf, os[i])
  }

  lemma {:induction false} RenderedLine(orig: seq<Line>, elines: seq<HunkLine>, os: seq<Origin>, i: nat)
    requires i < |os|
    ensures |Render(orig, elines, os)| == |os| && Render(orig, elines, os)[i] == LineOf(orig, elines, os[i])
  {
    var n := |os| - 1;
    if i < n {
      RenderedLine(orig, elines, os[..n], i);
    } else {
      RenderedLength(orig, elines, os[..n]);
    }
  }

  lemma {:induction false} RenderedLength(orig: seq<Line>, elines: seq<HunkLine>, os: seq<Origin>)
    ensures |Render(orig, elines, os)| == |os|
  {
    if os != [] {
      RenderedLength(orig, elines, os[..|os| - 1]);
    }
  }

  lemma LastByte(buf: Bytes)
    requires buf != []
    ensures var ls := SplitInclusive(buf);
      ls != [] && (Finished(ls[|ls| - 1]) <==> buf[|buf| - 1] == '\n')
  {
    LinesOfCut(buf);
    CutEnds(buf);
    var (full, rest) := Cut(buf);
    CutIsSplit(buf);
    CutLinesSplit(full, rest);
    if rest == [] {
      var l := WithNewlines(full)[|full| - 1];
      assert l == full[|full| - 1] + "\n" && l[..|l| - 1] == full[|full| - 1];
    }
  }

  lemma CutEnds(buf: Bytes)
    requires buf != []
    ensures Cut(buf).1 == [] <==> buf[|buf| - 1] == '\n'
    ensures Cut(buf).1 == [] ==> Cut(buf).0 != []
  {
  }

  lemma KeptFinishedIff(buf: Bytes, k: nat)
    requires k < |SplitInclusive(buf)|
    ensures var l := SplitInclusive(buf)[k]; Proper(l) && (Finished(l) <==> !Unfinished(buf, Kept(k)))
  {
    SplitIsProper(buf);
    LastByte(buf);
    if k < |SplitInclusive(buf)| - 1 {
      assert Finished(SplitInclusive(buf)[k]);
    }
  }

  lemma FinishedIff(buf: Bytes, elines: seq<HunkLine>, o: Origin)
    requires LineHunk(elines) && buf != [] && Names(|SplitInclusive(buf)|, |elines|, o)
    ensures var l := LineOf(SplitInclusive(buf), Terminated(elines), o);
      Proper(l) && (Finished(l) <==> !Unfinished(buf, o))
  {
    match o
    case Kept(k) => KeptFinishedIff(buf, k);
    case Added(k) =>
      var t := elines[k].text;
      assert (t + "\n")[..|t|] == t;
  }

  /** The new file falls into the lines of its layout exactly when nothing comes after a last
      line without a newline; otherwise that line and the next become one. */
  lemma OutputLinesIff(buf: Bytes, elines: seq<HunkLine>, os: seq<Origin>)
    requires LineHunk(elines) && buf != [] && Named(|SplitInclusive(buf)|, |elines|, os)
    ensures var ls := Render(SplitInclusive(buf), Terminated(elines), os);
      SplitInclusive(JoinLines(ls)) == ls <==> !RunsOn(buf, os)
  {
    var (orig, nl) := (SplitInclusive(buf), Terminated(elines));
    var ls := Render(orig, nl, os);
    RenderedLength(orig, nl, os);
    forall i | 0 <= i < |os|
      ensures Proper(ls[i]) && (Finished(ls[i]) <==> !Unfinished(buf, os[i]))
    {
      RenderedLine(orig, nl, os, i);
      FinishedIff(buf, elines, os[i]);
    }
    JoinedLinesIff(ls);
  }

  lemma {:induction false} KeptNamed(n: nat, m: nat, lo: nat, hi: nat)
    requires lo <= hi <= n
    ensures Named(n, m, KeepRange(lo, hi))
    decreases hi
  {
    if lo < hi {
      KeptNamed(n, m, lo, hi - 1);
    }
  }

  lemma {:induction false} OriginsNamed(orig: seq<Line>, elines: seq<HunkLine>, path: seq<Pair>)
    requires forall p :: p in path ==> InRange(orig, elines, p)
    ensures Named(|orig|, |elines|, Origins(elines, path))
  {
    if path != [] {
      var n := |path| - 1;
      assert path[n] in path;
      OriginsNamed(orig, elines, path[..n]);
    }
  }

  /** The new file falls into the lines of its layout. */
  ghost predicate LinesComeOut(buf: Bytes, elines: seq<HunkLine>, path: seq<Pair>, new_: Bytes)
    requires KeepsFile(buf, elines, path, new_)
  {
    var (n, nl) := (|SplitInclusive(buf)|, Terminated(elines));
    SplitInclusive(new_) == Render(SplitInclusive(buf), nl, Layout(n, nl, path))
  }

  /** The same for an applied hunk, end to end. */
  lemma AppliedFileLinesIff(root: Root, buf: Bytes, elines: seq<HunkLine>, line: nat, path: seq<Pair>, new_: Bytes)
    requires LineHunk(elines) && buf != []
    ensures Applies(root, buf, elines, line, path, new_) ==>
      && KeepsFile(buf, elines, path, new_)
      && (LinesComeOut(buf, elines, path, new_) <==>
          !RunsOn(buf, Layout(|SplitInclusive(buf)|, Terminated(elines), path)))
  {
    AppliedHunkFile(root, buf, elines, line, path, new_);
    if Applies(root, buf, elines, line, path, new_) {
      var (orig, nl) := (SplitInclusive(buf), Terminated(elines));
      var s1, s2 := Normalised(buf), Normalised(JoinNl(HunkTexts(elines)));
      TextsAreLines(elines);
      NormalisedIndexFile(buf);
      JoinedIsAsLong(HunkTexts(elines));
      var start, end := MatchAligns(Scored(root), s1, s2, Some(line), path);
      AlignedInRange(orig, s1, nl, s2, path, start, end);
      LayoutNamed(orig, nl, path);
      OutputLinesIff(buf, elines, Layout(|orig|, nl, path));
    }
  }

  lemma LayoutNamed(orig: seq<Line>, elines: seq<HunkLine>, path: seq<Pair>)
    requires path != [] && LastOrig(path) < |orig| && (path[0].0.Some? ==> path[0].0.value <= |orig|)
    requires forall p :: p in path ==> InRange(orig, elines, p)
    ensures Named(|orig|, |elines|, Layout(|orig|, elines, path))
  {
    var (n, m) := (|orig|, |elines|);
    var first := if path[0].0.Some? then path[0].0.value else n;
    var last := LastOrig(path) + 1;
    KeptNamed(n, m, 0, first);
    OriginsNamed(orig, elines, path);
    KeptNamed(n, m, last, n);
    ThreeNamed(n, m, KeepRange(0, first), Origins(elines, path), KeepRange(last, n));
  }

  lemma ThreeNamed(n: nat, m: nat, a: seq<Origin>, b: seq<Origin>, c: seq<Origin>)
    requires Named(n, m, a) && Named(n, m, b) && Named(n, m, c)
    ensures Named(n, m, a + b + c)
  {
  }
}
