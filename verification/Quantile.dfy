/** The estimator of crs/app/quantile.py: the counters of its view are fields, and one lock
    holds every call, so a call is one step. */
module Quantile {
  import opened QuantileSpec

  class QuantileEstimator {
    const q: real
    var cnt: nat
    var v: seq<real>
    var h: seq<real>
    var n: seq<real>
    var p: seq<real>

    /** The samples added so far. */
    ghost var samples: seq<real>

    function View(): (s: State)
      reads this
    {
      State(cnt, v, Markers(h, n, p))
    }

    ghost predicate Valid()
      reads this
    {
      0.0 < q < 1.0 && View() == Fed(q, samples)
    }

    constructor (q: real)
      requires 0.0 < q < 1.0
      ensures Valid() && this.q == q && samples == []
    {
      this.q := q;
      cnt, v, h, n, p := 0, INIT.v, [], [], [];
      samples := [];
    }

    /** Enters a sample; tells whether it is at or above the threshold then current. */
    method Add(x: real) returns (above: bool)
      requires Valid()
      modifies this
      ensures Valid() && samples == old(samples) + [x]
      ensures above == (x >= Threshold(q, View()))
    {
      FedOneMore(q, samples, x);
      above := Enter(x);
      samples := samples + [x];
    }

    method Enter(x: real) returns (above: bool)
      requires 0.0 < q < 1.0 && Ready(View())
      modifies `cnt, `v, `h, `n, `p
      ensures View() == Feed(q, old(View()), x)
      ensures above == (x >= Threshold(q, View()))
    {
      cnt := cnt + 1;
      if cnt <= 5 {
        v := v[cnt - 1 := x];
        var t := Bootstrap();
        return x >= t;
      }
      MoveMarkers(x);
      return x >= h[2];
    }

    method MoveMarkers(x: real)
      requires Spread(Markers(h, n, p))
      modifies `h, `n, `p
      ensures Markers(h, n, p) == old(AddMarker(q, Markers(h, n, p), x))
    {
      var k := FindCell(x);
      ShiftAbove(k);
      AdvanceDesired();
      AdjustMarkers();
    }

    /** Enters the sample among the heights and finds the cell it falls in. */
    method FindCell(x: real) returns (k: nat)
      requires |h| == 5
      modifies `h
      ensures (h, k) == Place(old(h), x)
    {
      if x < h[0] {
        h := h[0 := x];
        return 0;
      }
      if x >= h[4] {
        h := h[4 := x];
        return 3;
      }
      k := 0;
      while k < 3 && !(h[k] <= x < h[k + 1])
        invariant k <= 3
        invariant forall j :: 0 <= j < k ==> !(h[j] <= x < h[j + 1])
      {
        k := k + 1;
      }
    }

    method ShiftAbove(k: nat)
      requires |n| == 5 && k <= 3
      modifies `n
      ensures n == Shift(old(n), k)
    {
      var i := k + 1;
      while i < 5
        invariant k + 1 <= i <= 5 && |n| == 5
        invariant forall j :: 0 <= j < 5 ==> n[j] == if k < j < i then old(n)[j] + 1.0 else old(n)[j]
      {
        n := n[i := n[i] + 1.0];
        i := i + 1;
      }
    }

    method AdvanceDesired()
      requires |p| == 5
      modifies `p
      ensures p == Advance(old(p), q)
    {
      var i := 0;
      while i < 5
        invariant i <= 5 && |p| == 5
        invariant forall j :: 0 <= j < 5 ==> p[j] == if j < i then old(p)[j] + Increment(q)[j] else old(p)[j]
      {
        p := p[i := p[i] + Increment(q)[i]];
        i := i + 1;
      }
    }

    method AdjustMarkers()
      requires Spread(Markers(h, n, p))
      modifies `h, `n
      ensures Markers(h, n, p) == old(AdjustUpTo(Markers(h, n, p), 3))
    {
      var i := 1;
      while i < 4
        invariant 1 <= i <= 4 && Markers(h, n, p) == old(AdjustUpTo(Markers(h, n, p), i - 1))
      {
        AdjustMarker(i);
        i := i + 1;
      }
    }

    method AdjustMarker(i: nat)
      requires Spread(Markers(h, n, p)) && 1 <= i <= 3
      modifies `h, `n
      ensures Markers(h, n, p) == old(Adjust(Markers(h, n, p), i))
    {
      ghost var m := Markers(h, n, p);
      var d := p[i] - n[i];
      if (d >= 1.0 && n[i + 1] - n[i] > 1.0) || (d <= -1.0 && n[i - 1] - n[i] < -1.0) {
        assert Moves(m, i);
        var s := if d >= 1.0 then 1 else -1;
        var height := NewHeight(i, s);
        h, n := h[i := height], n[i := n[i] + s as real];
      }
    }

    /** The parabolic prediction where it keeps the heights in order, else the linear one. */
    method NewHeight(i: nat, s: int) returns (hp: real)
      requires Spread(Markers(h, n, p)) && 1 <= i <= 3 && (s == 1 || s == -1)
      ensures hp == Height(Markers(h, n, p), i, s)
    {
      hp := Parabolic(h[i - 1], h[i], h[i + 1], n[i - 1], n[i], n[i + 1], s as real);
      if !(h[i - 1] < hp < h[i + 1]) {
        hp := h[i] + Pull(s as real, h[i + s] - h[i], n[i + s] - n[i]);
      }
    }

    /** The exact quantile of the first samples; the fifth sets the markers up. */
    method Bootstrap() returns (t: real)
      requires 0.0 < q < 1.0 && 1 <= cnt <= 5 && |v| == 5
      modifies `h, `n, `p
      ensures cnt < 5 ==> View() == old(View()) && t == Threshold(q, View())
      ensures cnt == 5 ==> View() == State(5, v, FirstMarkers(q, v)) && t == h[2]
    {
      if cnt < 5 {
        RankInRange(q, cnt);
        return SortUp(v[..cnt])[Rank(q, cnt)];
      }
      var d := Increment(q);
      h, n := SortUp(v), [1.0, 2.0, 3.0, 4.0, 5.0];
      p := [1.0 + d[0] * 4.0, 1.0 + d[1] * 4.0, 1.0 + d[2] * 4.0, 1.0 + d[3] * 4.0, 1.0 + d[4] * 4.0];
      t := h[2];
    }

    method CurrentThreshold() returns (t: real)
      requires Valid()
      ensures t == Threshold(q, Fed(q, samples))
    {
      if cnt == 0 {
        return 0.0;
      }
      if cnt < 5 {
        RankInRange(q, cnt);
        return SortUp(v[..cnt])[Rank(q, cnt)];
      }
      t := h[2];
    }
  }
}
