/** The edit summary of two file versions (src/patch.rs, compute_edit). */
module ComputeEdit {
  import opened Wrappers

  type Bytes = string

  // Line ranges are half open, in the new and in the old file.
  datatype Edit =
    | Unchanged
    | Edit(lines: (nat, nat), oldLines: (nat, nat), before: seq<Bytes>, after: seq<Bytes>)

  // ---------------------------------------------------------------- lines

  /** Length of the first line, its newline included. */
  function FirstLine(buf: Bytes): (n: nat)
    ensures n <= |buf| && (buf != [] ==> n > 0)
  {
    if buf == [] then 0 else if buf[0] == '\n' then 1 else 1 + FirstLine(buf[1..])
  }

  function SplitInclusive(buf: Bytes): seq<Bytes> {
    if buf == [] then [] else [buf[..FirstLine(buf)]] + SplitInclusive(buf[FirstLine(buf)..])
  }

  function JoinLines(lines: seq<Bytes>): Bytes {
    if lines == [] then [] else lines[0] + JoinLines(lines[1..])
  }

  lemma {:induction false} JoinUndoesSplit(buf: Bytes)
    ensures JoinLines(SplitInclusive(buf)) == buf
    decreases |buf|
  {
    if buf != [] {
      var n := FirstLine(buf);
      JoinUndoesSplit(buf[n..]);
      JoinFirst(buf[..n], SplitInclusive(buf[n..]));
      assert buf == buf[..n] + buf[n..];
    }
  }

  lemma JoinFirst(l: Bytes, rest: seq<Bytes>)
    ensures JoinLines([l] + rest) == l + JoinLines(rest)
  {
    assert ([l] + rest)[1..] == rest;
  }

  lemma {:induction false} JoinAppends(a: seq<Bytes>, b: seq<Bytes>)
    ensures JoinLines(a + b) == JoinLines(a) + JoinLines(b)
  {
    if a == [] {
      assert a + b == b;
    } else {
      assert (a + b)[1..] == a[1..] + b;
      JoinAppends(a[1..], b);
    }
  }

  // ---------------------------------------------------------------- the two scans

  /** First index, from `i` on, where both files have a line and the lines differ. */
  function FirstDifference(old_: seq<Bytes>, new_: seq<Bytes>, i: nat): Option<nat>
    decreases |old_| - i
  {
    if i >= |old_| || i >= |new_| then None
    else if old_[i] != new_[i] then Some(i)
    else FirstDifference(old_, new_, i + 1)
  }

  /** Scanning both files from the end, `t` lines already matched: the ends of the changed
      ranges, new file first. */
  function LastDifference(old_: seq<Bytes>, new_: seq<Bytes>, lineStart: nat, t: nat): Option<(nat, nat)>
    decreases |old_| - t
  {
    if t >= |old_| || t >= |new_| then None
    else
      var (oi, ni) := (|old_| - 1 - t, |new_| - 1 - t);
      if ni == lineStart || oi == lineStart || old_[oi] != new_[ni] then Some((ni + 1, oi + 1))
      else LastDifference(old_, new_, lineStart, t + 1)
  }

  // ---------------------------------------------------------------- what the scans find

  ghost predicate LinePrefix(old_: seq<Bytes>, new_: seq<Bytes>) {
    old_ <= new_ || new_ <= old_
  }

  lemma {:induction false} FirstDifferenceIsFirst(old_: seq<Bytes>, new_: seq<Bytes>, i: nat)
    requires i <= |old_| && i <= |new_| && old_[..i] == new_[..i]
    ensures match FirstDifference(old_, new_, i)
            case None => LinePrefix(old_, new_)
            case Some(s) => s < |old_| && s < |new_| && old_[..s] == new_[..s] && old_[s] != new_[s]
    decreases |old_| - i
  {
    if i < |old_| && i < |new_| && old_[i] == new_[i] {
      assert old_[..i + 1] == old_[..i] + [old_[i]] == new_[..i + 1];
      FirstDifferenceIsFirst(old_, new_, i + 1);
    }
  }

  lemma {:induction false} LastDifferenceIsLast(old_: seq<Bytes>, new_: seq<Bytes>, s: nat, t: nat)
    requires s + t < |old_| && s + t < |new_| && old_[|old_| - t..] == new_[|new_| - t..]
    ensures match LastDifference(old_, new_, s, t)
            case None => false
            case Some((ne, oe)) =>
              && s < ne <= |new_| && s < oe <= |old_|
              && old_[oe..] == new_[ne..]
              && (oe == s + 1 || ne == s + 1 || old_[oe - 1] != new_[ne - 1])
    decreases |old_| - t
  {
    var (oi, ni) := (|old_| - 1 - t, |new_| - 1 - t);
    if ni != s && oi != s && old_[oi] == new_[ni] {
      LongerEnd(old_, oi);
      LongerEnd(new_, ni);
      LastDifferenceIsLast(old_, new_, s, t + 1);
    }
  }

  lemma LongerEnd(ls: seq<Bytes>, i: nat)
    requires i < |ls|
    ensures ls[i..] == [ls[i]] + ls[i + 1..]
  {
  }

  // ---------------------------------------------------------------- the edit

  function EditOf(old_: seq<Bytes>, new_: seq<Bytes>): Edit {
    match FirstDifference(old_, new_, 0)
    case None => Unchanged
    case Some(lineStart) =>
      FirstDifferenceIsFirst(old_, new_, 0);
      LastDifferenceIsLast(old_, new_, lineStart, 0);
      match LastDifference(old_, new_, lineStart, 0)
      case None => Unchanged
      case Some((lineEnd, oldLineEnd)) =>
        Edit((lineStart, lineEnd), (lineStart, oldLineEnd), old_[lineStart..oldLineEnd], new_[lineStart..lineEnd])
  }

  function ComputeEdit(a: Bytes, b: Bytes): Edit { EditOf(SplitInclusive(a), SplitInclusive(b)) }

  // ---------------------------------------------------------------- the theorems

  /** Replace the reported range of the old file by the new lines. */
  ghost function Redo(e: Edit, a: Bytes): Bytes {
    var old_ := SplitInclusive(a);
    if e.Unchanged? || !(e.oldLines.0 <= e.oldLines.1 <= |old_|) then a
    else JoinLines(old_[..e.oldLines.0]) + JoinLines(e.after) + JoinLines(old_[e.oldLines.1..])
  }

  /** Replace the reported range of the new file by the old lines. */
  ghost function Undo(e: Edit, b: Bytes): Bytes {
    var new_ := SplitInclusive(b);
    if e.Unchanged? || !(e.lines.0 <= e.lines.1 <= |new_|) then b
    else JoinLines(new_[..e.lines.0]) + JoinLines(e.before) + JoinLines(new_[e.lines.1..])
  }

  /** No change is reported exactly when one file's lines begin with all of the other's. */
  lemma UnchangedIffLinePrefix(a: Bytes, b: Bytes)
    ensures ComputeEdit(a, b).Unchanged? <==> LinePrefix(SplitInclusive(a), SplitInclusive(b))
  {
    var (old_, new_) := (SplitInclusive(a), SplitInclusive(b));
    FirstDifferenceIsFirst(old_, new_, 0);
    match FirstDifference(old_, new_, 0)
    case None =>
    case Some(s) =>
      LastDifferenceIsLast(old_, new_, s, 0);
      assert !LinePrefix(old_, new_) by {
        assert old_[s] != new_[s];
      }
  }

  ghost predicate Tight(e: Edit, old_: seq<Bytes>, new_: seq<Bytes>)
    requires e.Edit?
  {
    var (s, ne, oe) := (e.lines.0, e.lines.1, e.oldLines.1);
    && e.oldLines.0 == s && s < ne <= |new_| && s < oe <= |old_|
    && old_[..s] == new_[..s] && old_[s] != new_[s]
    && old_[oe..] == new_[ne..]
    && (oe == s + 1 || ne == s + 1 || old_[oe - 1] != new_[ne - 1])
    && e.before == old_[s..oe] && e.after == new_[s..ne]
  }

  lemma RangeIsTight(old_: seq<Bytes>, new_: seq<Bytes>)
    requires EditOf(old_, new_).Edit?
    ensures Tight(EditOf(old_, new_), old_, new_)
  {
    FirstDifferenceIsFirst(old_, new_, 0);
    var s := FirstDifference(old_, new_, 0).value;
    LastDifferenceIsLast(old_, new_, s, 0);
  }

  /** A reported range is never empty, starts at the first differing line, and reaches as
      little far to the right as it can. */
  lemma ReportedRangeIsTight(a: Bytes, b: Bytes)
    requires ComputeEdit(a, b).Edit?
    ensures Tight(ComputeEdit(a, b), SplitInclusive(a), SplitInclusive(b))
  {
    RangeIsTight(SplitInclusive(a), SplitInclusive(b));
  }

  lemma JoinThree(a: seq<Bytes>, b: seq<Bytes>, c: seq<Bytes>)
    ensures JoinLines(a + b + c) == JoinLines(a) + JoinLines(b) + JoinLines(c)
  {
    JoinAppends(a + b, c);
    JoinAppends(a, b);
  }

  lemma RangeJoins(buf: Bytes, lines: seq<Bytes>, lo: nat, hi: nat)
    requires lines == SplitInclusive(buf) && lo <= hi <= |lines|
    ensures JoinLines(lines[..lo]) + JoinLines(lines[lo..hi]) + JoinLines(lines[hi..]) == buf
  {
    var (x, y, z) := (lines[..lo], lines[lo..hi], lines[hi..]);
    assert lines == x + y + z;
    JoinThree(x, y, z);
    JoinUndoesSplit(buf);
  }

  /** A reported edit carries the old bytes to the new ones and back. */
  lemma EditRoundTrip(a: Bytes, b: Bytes)
    requires ComputeEdit(a, b).Edit?
    ensures Redo(ComputeEdit(a, b), a) == b && Undo(ComputeEdit(a, b), b) == a
  {
    var e := ComputeEdit(a, b);
    ReportedRangeIsTight(a, b);
    RangeJoins(b, SplitInclusive(b), e.lines.0, e.lines.1);
    RangeJoins(a, SplitInclusive(a), e.oldLines.0, e.oldLines.1);
  }

  /** The summary is faithful except for files that only gained or lost lines at the end. */
  lemma EditFaithfulIff(a: Bytes, b: Bytes)
    ensures Redo(ComputeEdit(a, b), a) == b <==> a == b || !LinePrefix(SplitInclusive(a), SplitInclusive(b))
  {
    UnchangedIffLinePrefix(a, b);
    if ComputeEdit(a, b).Edit? {
      EditRoundTrip(a, b);
    }
  }

  /** A line appended at the end goes unreported. */
  lemma AppendedLineIsUnreported()
    ensures ComputeEdit("x\n", "x\ny\n") == Unchanged
  {
    var (a, b) := ("x\n", "x\ny\n");
    assert a[1..] == "\n" && b[1..] == "\ny\n" && b[2..] == "y\n" && b[2..][1..] == "\n";
    assert FirstLine(a) == 2 && FirstLine(b) == 2 && FirstLine(b[2..]) == 2;
    assert a[..2] == a && a[2..] == [] && b[..2] == a;
    assert SplitInclusive(a) == [a];
    assert SplitInclusive(b) == [a] + SplitInclusive(b[2..]);
    UnchangedIffLinePrefix(a, b);
  }
}
