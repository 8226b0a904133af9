/** The run-length compression of utils/rle.py, down to the pieces it prints. */
module RunLength {
  import opened Wrappers

  datatype Limits = Limits(minRepeat: int, maxSubseq: int)

  datatype Piece<T> = Literal(items: seq<T>) | Run(pattern: seq<T>, count: nat)

  function Power<T>(p: seq<T>, k: nat): (r: seq<T>)
    ensures |r| == k * |p|
  {
    if k == 0 then [] else Power(p, k - 1) + p
  }

  function Width<T>(p: Piece<T>): nat {
    if p.Literal? then |p.items| else p.count * |p.pattern|
  }

  function Expand<T>(pieces: seq<Piece<T>>): seq<T> {
    if pieces == [] then []
    else
      var p := pieces[0];
      (if p.Literal? then p.items else Power(p.pattern, p.count)) + Expand(pieces[1..])
  }

  // ---------------------------------------------------------------- repeats

  /** The `l` elements at `pos` come `k` times in a row. */
  ghost predicate Repeats<T>(s: seq<T>, pos: nat, l: nat, k: nat) {
    RepeatsOver(s, pos, l, k, k * l)
  }

  ghost predicate RepeatsOver<T>(s: seq<T>, pos: nat, l: nat, k: nat, n: nat) {
    1 <= l && 1 <= k && pos + l <= |s| && pos + n <= |s| && s[pos..pos + n] == Power(s[pos..pos + l], k)
  }

  ghost predicate Qualifies<T>(lim: Limits, s: seq<T>, pos: nat, l: nat, k: nat) {
    l <= lim.maxSubseq && lim.minRepeat <= k && Repeats(s, pos, l, k)
  }

  ghost predicate Starts<T>(lim: Limits, s: seq<T>, pos: nat) {
    exists l: nat, k: nat :: Qualifies(lim, s, pos, l, k)
  }

  /** No other repeat at `pos` covers more, and none as short covers as much. */
  ghost predicate Best<T>(lim: Limits, s: seq<T>, pos: nat, l: nat, k: nat) {
    && Qualifies(lim, s, pos, l, k)
    && forall l': nat, k': nat :: Qualifies(lim, s, pos, l', k') ==> k' * l' <= k * l && (l' < l ==> k' * l' < k * l)
  }

  lemma {:induction false} PowerPrefix<T>(p: seq<T>, j: nat, k: nat)
    requires j <= k
    ensures j * |p| <= k * |p| && Power(p, k)[..j * |p|] == Power(p, j)
  {
    if j < k {
      PowerPrefix(p, j, k - 1);
      assert k * |p| == (k - 1) * |p| + |p|;
      assert Power(p, k)[..j * |p|] == Power(p, k - 1)[..j * |p|];
    }
  }

  lemma FewerRepeats<T>(s: seq<T>, pos: nat, l: nat, j: nat, k: nat)
    requires Repeats(s, pos, l, k) && 1 <= j <= k
    ensures Repeats(s, pos, l, j)
  {
    PowerPrefix(s[pos..pos + l], j, k);
    assert s[pos..pos + j * l] == s[pos..pos + k * l][..j * l];
  }

  /** The block after `k` of them is the first one again. */
  predicate Continues<T(==)>(s: seq<T>, pos: nat, l: nat, k: nat)
    requires pos + l <= |s|
  {
    SameBlock(s, pos, l, k * l)
  }

  predicate SameBlock<T(==)>(s: seq<T>, pos: nat, l: nat, n: nat)
    requires pos + l <= |s|
  {
    pos + n + l <= |s| && s[pos + n..pos + n + l] == s[pos..pos + l]
  }

  lemma OneMore<T>(s: seq<T>, pos: nat, l: nat, k: nat)
    requires Repeats(s, pos, l, k)
    ensures Repeats(s, pos, l, k + 1) <==> Continues(s, pos, l, k)
    ensures (k + 1) * l > k * l
  {
    var n := k * l;
    NextMultiple(k, l);
    OneMoreBlock(s, pos, l, k, n);
  }

  lemma OneMoreBlock<T>(s: seq<T>, pos: nat, l: nat, k: nat, n: nat)
    requires RepeatsOver(s, pos, l, k, n)
    ensures RepeatsOver(s, pos, l, k + 1, n + l) <==> SameBlock(s, pos, l, n)
  {
    if pos + n + l <= |s| {
      var (p, front) := (s[pos..pos + l], s[pos..pos + n]);
      PowerNext(p, k, front);
      NextBlock(s, pos, n, l, p, front, Power(p, k + 1));
    }
  }

  lemma NextMultiple(k: nat, l: nat)
    ensures (k + 1) * l == k * l + l
  {
  }

  lemma PowerNext<T>(p: seq<T>, k: nat, front: seq<T>)
    requires front == Power(p, k)
    ensures Power(p, k + 1) == front + p
  {
  }

  lemma NextBlock<T>(s: seq<T>, pos: nat, n: nat, l: nat, p: seq<T>, front: seq<T>, all: seq<T>)
    requires pos + n + l <= |s| && |p| == l && front == s[pos..pos + n] && all == front + p
    ensures s[pos..pos + (n + l)] == all <==> s[pos + n..pos + n + l] == p
  {
    var next := s[pos + n..pos + n + l];
    assert s[pos..pos + (n + l)] == front + next;
    assert (front + next)[n..] == next && (front + p)[n..] == p;
  }

  lemma Once<T>(s: seq<T>, pos: nat, l: nat)
    requires 1 <= l && pos + l <= |s|
    ensures Repeats(s, pos, l, 1)
  {
    assert Power(s[pos..pos + l], 1) == Power(s[pos..pos + l], 0) + s[pos..pos + l];
  }

  /** How often the `l` elements at `pos` come in a row. */
  method CountRepeats<T(==)>(s: seq<T>, pos: nat, l: nat) returns (k: nat)
    requires 1 <= l && pos + l <= |s|
    ensures Repeats(s, pos, l, k) && forall j: nat :: Repeats(s, pos, l, j) ==> j <= k
  {
    k := 1;
    Once(s, pos, l);
    while Continues(s, pos, l, k)
      invariant Repeats(s, pos, l, k)
      decreases |s| - k * l
    {
      OneMore(s, pos, l, k);
      k := k + 1;
    }
    NoMore(s, pos, l, k);
  }

  lemma NoMore<T>(s: seq<T>, pos: nat, l: nat, k: nat)
    requires Repeats(s, pos, l, k) && !Continues(s, pos, l, k)
    ensures forall j: nat :: Repeats(s, pos, l, j) ==> j <= k
  {
    OneMore(s, pos, l, k);
    forall j: nat | Repeats(s, pos, l, j) ensures j <= k {
      if j > k {
        FewerRepeats(s, pos, l, k + 1, j);
      }
    }
  }

  /** The qualifying repeat at `pos` that covers most, the shortest one on ties; (0, 0) if none
      qualifies. */
  method LongestRun<T(==)>(lim: Limits, s: seq<T>, pos: nat) returns (bestL: nat, bestK: nat)
    requires pos <= |s|
    ensures bestK == 0 <==> !Starts(lim, s, pos)
    ensures bestK > 0 ==> Best(lim, s, pos, bestL, bestK)
  {
    bestL, bestK := 0, 0;
    var l := 1;
    while l <= lim.maxSubseq && pos + l <= |s|
      invariant 1 <= l
      invariant BestBelow(lim, s, pos, l, bestL, bestK)
    {
      var k := CountRepeats(s, pos, l);
      Longer(lim, s, pos, l, bestL, bestK, k);
      if k >= lim.minRepeat && k * l > bestK * bestL {
        bestL, bestK := l, k;
      }
      l := l + 1;
    }
    AllLengths(lim, s, pos, l, bestL, bestK);
  }

  /** The best repeat among those shorter than `l`, (0, 0) standing for none. */
  ghost predicate BestBelow<T>(lim: Limits, s: seq<T>, pos: nat, l: nat, bestL: nat, bestK: nat) {
    && (bestK == 0 ==> bestL == 0)
    && (bestK > 0 ==> bestL < l && Qualifies(lim, s, pos, bestL, bestK))
    && forall l': nat, k': nat :: l' < l && Qualifies(lim, s, pos, l', k')
         ==> k' * l' <= bestK * bestL && (l' < bestL ==> k' * l' < bestK * bestL)
  }

  lemma ProductGrows(j: nat, k: nat, l: nat)
    requires j <= k
    ensures j * l <= k * l
  {
  }

  lemma Longer<T>(lim: Limits, s: seq<T>, pos: nat, l: nat, bestL: nat, bestK: nat, k: nat)
    requires BestBelow(lim, s, pos, l, bestL, bestK) && 1 <= l <= lim.maxSubseq
    requires Repeats(s, pos, l, k) && forall j: nat :: Repeats(s, pos, l, j) ==> j <= k
    ensures if k >= lim.minRepeat && k * l > bestK * bestL then BestBelow(lim, s, pos, l + 1, l, k)
            else BestBelow(lim, s, pos, l + 1, bestL, bestK)
  {
    forall j: nat | Qualifies(lim, s, pos, l, j) ensures j * l <= k * l && k >= lim.minRepeat {
      ProductGrows(j, k, l);
    }
  }

  lemma AllLengths<T>(lim: Limits, s: seq<T>, pos: nat, l: nat, bestL: nat, bestK: nat)
    requires BestBelow(lim, s, pos, l, bestL, bestK) && (l > lim.maxSubseq || pos + l > |s|)
    ensures bestK == 0 <==> !Starts(lim, s, pos)
    ensures bestK > 0 ==> Best(lim, s, pos, bestL, bestK)
  {
    forall l': nat, k': nat | Qualifies(lim, s, pos, l', k') ensures l' < l && 0 < k' * l' {
      ProductGrows(1, k', l');
    }
  }

  // ---------------------------------------------------------------- pieces

  ghost predicate Plain<T>(lim: Limits, s: seq<T>, lo: nat, hi: nat) {
    forall i :: lo <= i < hi ==> !Starts(lim, s, i)
  }

  /** A literal piece holds no start of a qualifying repeat; a run is the best one where it
      stands. */
  ghost predicate Sound<T>(lim: Limits, s: seq<T>, at: nat, p: Piece<T>) {
    if p.Literal? then
      && p.items != [] && at + |p.items| <= |s| && s[at..at + |p.items|] == p.items
      && Plain(lim, s, at, at + |p.items|)
    else
      Best(lim, s, at, |p.pattern|, p.count) && s[at..at + |p.pattern|] == p.pattern
  }

  /** The pieces cover `s` from `at` to `end`, each soundly, no two literal ones side by side. */
  ghost predicate Covers<T>(lim: Limits, s: seq<T>, at: nat, pieces: seq<Piece<T>>, end: nat)
    decreases |pieces|
  {
    if pieces == [] then at == end
    else
      && Sound(lim, s, at, pieces[0])
      && (pieces[0].Literal? && |pieces| > 1 ==> pieces[1].Run?)
      && Covers(lim, s, at + Width(pieces[0]), pieces[1..], end)
  }

  lemma {:induction false} CoversOneMore<T>(lim: Limits, s: seq<T>, at: nat, pieces: seq<Piece<T>>, end: nat,
                                            p: Piece<T>)
    requires Covers(lim, s, at, pieces, end) && Sound(lim, s, end, p)
    requires p.Literal? && pieces != [] ==> pieces[|pieces| - 1].Run?
    ensures Covers(lim, s, at, pieces + [p], end + Width(p))
    decreases |pieces|
  {
    var all := pieces + [p];
    if pieces == [] {
      assert all[1..] == [];
    } else {
      CoversOneMore(lim, s, at + Width(pieces[0]), pieces[1..], end, p);
      assert all[1..] == pieces[1..] + [p];
    }
  }

  lemma SoundExpands<T>(lim: Limits, s: seq<T>, at: nat, p: Piece<T>)
    requires Sound(lim, s, at, p)
    ensures at + Width(p) <= |s| && Width(p) > 0 && Expand([p]) == s[at..at + Width(p)]
  {
    if p.Run? {
      ProductGrows(1, p.count, |p.pattern|);
    }
    assert Expand([p][1..]) == [];
  }

  lemma JoinSlices<T>(s: seq<T>, lo: nat, mid: nat, hi: nat, x: seq<T>, y: seq<T>)
    requires lo <= mid <= hi <= |s| && x == s[lo..mid] && y == s[mid..hi]
    ensures x + y == s[lo..hi]
  {
  }

  lemma ExpandFirst<T>(pieces: seq<Piece<T>>)
    requires pieces != []
    ensures Expand(pieces) == Expand([pieces[0]]) + Expand(pieces[1..])
  {
    assert [pieces[0]][1..] == [];
  }

  /** Covering pieces expand to what they cover. */
  lemma {:induction false} CoveringExpands<T>(lim: Limits, s: seq<T>, at: nat, pieces: seq<Piece<T>>, end: nat)
    requires Covers(lim, s, at, pieces, end) && end <= |s|
    ensures at <= end && Expand(pieces) == s[at..end]
    decreases |pieces|
  {
    if pieces != [] {
      var mid := at + Width(pieces[0]);
      var (first, rest) := (pieces[0], pieces[1..]);
      assert Sound(lim, s, at, first) && Covers(lim, s, mid, rest, end);
      SoundExpands(lim, s, at, first);
      CoveringExpands(lim, s, mid, rest, end);
      ExpandFirst(pieces);
      JoinSlices(s, at, mid, end, Expand([first]), Expand(rest));
    }
  }

  lemma WholeExpands<T>(lim: Limits, s: seq<T>, pieces: seq<Piece<T>>)
    requires Covers(lim, s, 0, pieces, |s|)
    ensures Expand(pieces) == s
  {
    CoveringExpands(lim, s, 0, pieces, |s|);
    assert s[0..|s|] == s;
  }

  lemma BestIsOne<T>(lim: Limits, s: seq<T>, pos: nat, l: nat, k: nat, l': nat, k': nat)
    requires Best(lim, s, pos, l, k) && Best(lim, s, pos, l', k')
    ensures l == l' && k == k'
  {
    SameFactor(l, k, k');
  }

  lemma SameFactor(l: nat, k: nat, k': nat)
    requires l > 0
    ensures k * l == k' * l ==> k == k'
  {
  }

  /** Two coverings of the same stretch are the same pieces. */
  lemma {:induction false} CoveringIsUnique<T>(lim: Limits, s: seq<T>, at: nat, a: seq<Piece<T>>, b: seq<Piece<T>>)
    requires Covers(lim, s, at, a, |s|) && Covers(lim, s, at, b, |s|)
    ensures a == b
    decreases |a|
  {
    if a == [] || b == [] {
      CoveringExpands(lim, s, at, a, |s|);
      CoveringExpands(lim, s, at, b, |s|);
      NothingLeft(lim, s, at, a);
      NothingLeft(lim, s, at, b);
    } else {
      SamePiece(lim, s, at, a, b);
      CoveringIsUnique(lim, s, at + Width(a[0]), a[1..], b[1..]);
      assert a == [a[0]] + a[1..] && b == [b[0]] + b[1..];
    }
  }

  lemma NothingLeft<T>(lim: Limits, s: seq<T>, at: nat, pieces: seq<Piece<T>>)
    requires Covers(lim, s, at, pieces, |s|)
    ensures pieces == [] <==> at == |s|
  {
    if pieces != [] {
      SoundExpands(lim, s, at, pieces[0]);
    }
  }

  lemma SamePiece<T>(lim: Limits, s: seq<T>, at: nat, a: seq<Piece<T>>, b: seq<Piece<T>>)
    requires a != [] && b != [] && Covers(lim, s, at, a, |s|) && Covers(lim, s, at, b, |s|)
    ensures a[0] == b[0]
  {
    RunIffStarts(lim, s, at, a[0]);
    RunIffStarts(lim, s, at, b[0]);
    if a[0].Run? {
      SameRun(lim, s, at, a[0], b[0]);
    } else {
      LiteralEnds(lim, s, at, a, |b[0].items|);
      LiteralEnds(lim, s, at, b, |a[0].items|);
    }
  }

  lemma RunIffStarts<T>(lim: Limits, s: seq<T>, at: nat, p: Piece<T>)
    requires Sound(lim, s, at, p)
    ensures p.Run? <==> Starts(lim, s, at)
  {
    if p.Run? {
      assert Qualifies(lim, s, at, |p.pattern|, p.count);
    }
  }

  lemma SameRun<T>(lim: Limits, s: seq<T>, at: nat, p: Piece<T>, q: Piece<T>)
    requires p.Run? && q.Run? && Sound(lim, s, at, p) && Sound(lim, s, at, q)
    ensures p == q
  {
    BestIsOne(lim, s, at, |p.pattern|, p.count, |q.pattern|, q.count);
  }

  /** A literal piece goes on to the next start or the end. */
  lemma LiteralEnds<T>(lim: Limits, s: seq<T>, at: nat, a: seq<Piece<T>>, width: nat)
    requires a != [] && a[0].Literal? && Covers(lim, s, at, a, |s|)
    requires at + width <= |s| && Plain(lim, s, at, at + width)
    ensures width <= |a[0].items|
  {
    var mid := at + |a[0].items|;
    NothingLeft(lim, s, mid, a[1..]);
    if |a| > 1 {
      assert a[1..][0].Run?;
      assert Starts(lim, s, mid);
    }
  }

  // ---------------------------------------------------------------- compressing

  /** The pieces so far end in a run at `lo`, and no repeat starts from there to `i`. */
  ghost predicate Packed<T>(lim: Limits, s: seq<T>, pieces: seq<Piece<T>>, lo: nat, i: nat) {
    && lo <= i <= |s| && Covers(lim, s, 0, pieces, lo) && Plain(lim, s, lo, i)
    && if pieces == [] then lo == 0 else pieces[|pieces| - 1].Run? && !Plain(lim, s, 0, |s|)
  }

  lemma PackedNext<T>(lim: Limits, s: seq<T>, pieces: seq<Piece<T>>, lo: nat, i: nat)
    requires Packed(lim, s, pieces, lo, i) && i < |s| && !Starts(lim, s, i)
    ensures Packed(lim, s, pieces, lo, i + 1)
  {
  }

  /** The pieces of a sequence; none at all when no position starts a qualifying repeat. */
  method Compress<T(==)>(lim: Limits, s: seq<T>) returns (r: Option<seq<Piece<T>>>)
    ensures r.None? <==> Plain(lim, s, 0, |s|)
    ensures r.Some? ==> Covers(lim, s, 0, r.value, |s|) && Expand(r.value) == s
  {
    var pieces: seq<Piece<T>> := [];
    var i: nat, segStart: nat := 0, 0;
    while i < |s|
      invariant Packed(lim, s, pieces, segStart, i)
    {
      var l, k := LongestRun(lim, s, i);
      if k != 0 {
        pieces := EmitBoth(lim, s, pieces, segStart, i, l, k);
        i := i + l * k;
        segStart := i;
      } else {
        PackedNext(lim, s, pieces, segStart, i);
        i := i + 1;
      }
    }
    if pieces == [] {
      return None;
    }
    pieces := Emit(lim, s, pieces, segStart, |s|);
    WholeExpands(lim, s, pieces);
    r := Some(pieces);
  }

  /** A repeat and the stretch before it. */
  method EmitBoth<T>(lim: Limits, s: seq<T>, pieces: seq<Piece<T>>, lo: nat, i: nat, l: nat, k: nat)
    returns (more: seq<Piece<T>>)
    requires Packed(lim, s, pieces, lo, i) && Best(lim, s, i, l, k)
    ensures i < i + l * k && Packed(lim, s, more, i + l * k, i + l * k)
  {
    more := Emit(lim, s, pieces, lo, i);
    more := EmitRun(lim, s, more, i, l, k);
  }

  method EmitRun<T>(lim: Limits, s: seq<T>, pieces: seq<Piece<T>>, i: nat, l: nat, k: nat)
    returns (more: seq<Piece<T>>)
    requires Covers(lim, s, 0, pieces, i) && Best(lim, s, i, l, k)
    ensures i < i + l * k <= |s| && Covers(lim, s, 0, more, i + l * k)
    ensures more == pieces + [Run(s[i..i + l], k)] && !Plain(lim, s, 0, |s|)
  {
    var run := Run(s[i..i + l], k);
    SoundExpands(lim, s, i, run);
    CoversOneMore(lim, s, 0, pieces, i, run);
    RunIffStarts(lim, s, i, run);
    more := pieces + [run];
  }

  /** Adds the stretch between two runs, if there is one. */
  method Emit<T>(lim: Limits, s: seq<T>, pieces: seq<Piece<T>>, lo: nat, hi: nat) returns (more: seq<Piece<T>>)
    requires lo <= hi <= |s| && Covers(lim, s, 0, pieces, lo)
    requires pieces != [] ==> pieces[|pieces| - 1].Run?
    requires Plain(lim, s, lo, hi)
    ensures Covers(lim, s, 0, more, hi)
    ensures more == if lo < hi then pieces + [Literal(s[lo..hi])] else pieces
  {
    more := pieces;
    if lo < hi {
      CoversOneMore(lim, s, 0, pieces, lo, Literal(s[lo..hi]));
      more := more + [Literal(s[lo..hi])];
    }
  }

  // ---------------------------------------------------------------- both limits are inclusive

  /** A pattern of the greatest length allowed that comes the least number of times is a run. */
  lemma LimitsAreInclusive(pieces: seq<Piece<int>>)
    requires Covers(Limits(2, 2), [1, 2, 1, 2], 0, pieces, 4)
    ensures pieces == [Run([1, 2], 2)]
  {
    var (lim, s) := (Limits(2, 2), [1, 2, 1, 2]);
    var run: Piece<int> := Run([1, 2], 2);
    TwiceIsBest();
    assert s[0..2] == [1, 2];
    assert Covers(lim, s, 4, [run][1..], 4);
    CoveringIsUnique(lim, s, 0, pieces, [run]);
  }

  lemma TwiceIsBest()
    ensures Best(Limits(2, 2), [1, 2, 1, 2], 0, 2, 2)
  {
    var (lim, s) := (Limits(2, 2), [1, 2, 1, 2]);
    var p := s[0..2];
    assert p == [1, 2] && s[0..4] == p + p;
    PowerNext(p, 0, []);
    PowerNext(p, 1, p);
    forall l: nat, k: nat | Qualifies(lim, s, 0, l, k) ensures k * l <= 4 && (l < 2 ==> k * l < 4) {
      if l == 1 {
        OneIsNoRun();
        FewerRepeats(s, 0, 1, 2, k);
        assert false;
      }
    }
  }

  /** Of two patterns that cover as much, the shorter one is the run. */
  lemma ShorterIsBest()
    ensures Best(Limits(2, 2), [1, 1, 1, 1], 0, 1, 4) && !Best(Limits(2, 2), [1, 1, 1, 1], 0, 2, 2)
  {
    var s := [1, 1, 1, 1];
    var p := s[0..1];
    PowerNext(p, 0, []);
    PowerNext(p, 1, p);
    PowerNext(p, 2, p + p);
    PowerNext(p, 3, p + p + p);
    assert s[0..4] == p + p + p + p;
    assert Qualifies(Limits(2, 2), s, 0, 1, 4);
    forall l: nat, k: nat | Qualifies(Limits(2, 2), s, 0, l, k) ensures k * l <= 4 && (l < 1 ==> k * l < 4) {
    }
  }

  lemma OneIsNoRun()
    ensures !Repeats([1, 2, 1, 2], 0, 1, 2)
  {
    var s := [1, 2, 1, 2];
    var p := s[0..1];
    PowerNext(p, 0, []);
    PowerNext(p, 1, p);
    assert s[0..2][1] == 2 && (p + p)[1] == 1;
  }
}
