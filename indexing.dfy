/**
 * Index bookkeeping of the partitioned solve: np.where over a boolean mask,
 * fancy reads `v[idx]` / `A[np.ix_(rows, cols)]` and fancy writes `u[idx] = vals`.
 */
module Indexing {
  import opened LinearAlgebra

  predicate Bounded(idx: seq<nat>, n: nat) {
    forall t :: 0 <= t < |idx| ==> idx[t] < n
  }

  predicate Ascending(idx: seq<nat>) {
    forall t, t' :: 0 <= t < t' < |idx| ==> idx[t] < idx[t']
  }

  /** np.where(m == v)[0]: the positions of m that hold v, in ascending order. */
  function Where(m: seq<bool>, v: bool): (idx: seq<nat>)
    ensures Bounded(idx, |m|) && Ascending(idx)
    ensures forall t :: 0 <= t < |idx| ==> m[idx[t]] == v
    ensures forall d :: 0 <= d < |m| && m[d] == v ==> d in idx
  {
    if |m| == 0 then []
    else
      var w := Where(m[..|m| - 1], v);
      if m[|m| - 1] == v then w + [|m| - 1] else w
  }

  /** v[idx]. */
  function Gather(v: Vector, idx: seq<nat>): (r: Vector)
    requires Bounded(idx, |v|)
    ensures |r| == |idx|
  {
    seq(|idx|, t requires 0 <= t < |idx| => v[idx[t]])
  }

  /** A[np.ix_(rows, cols)]. */
  function Submatrix(A: Matrix, rows: seq<nat>, cols: seq<nat>): Matrix
    requires Bounded(rows, |A|)
    requires forall t :: 0 <= t < |rows| ==> Bounded(cols, |A[rows[t]]|)
  {
    seq(|rows|, t requires 0 <= t < |rows| => Gather(A[rows[t]], cols))
  }

  /** A copy of base after `base[idx] = vals`, one index after the other. */
  function Scatter(base: Vector, idx: seq<nat>, vals: Vector): (r: Vector)
    requires |idx| == |vals| && Bounded(idx, |base|)
    ensures |r| == |base|
  {
    if |idx| == 0 then base
    else Scatter(base, idx[..|idx| - 1], vals[..|vals| - 1])[idx[|idx| - 1] := vals[|vals| - 1]]
  }

  // ---------------------------------------------------------------------
  // Where over a mask and its complement

  /** Every position is listed by exactly one of Where(m, false) and Where(m, true), according to m. */
  lemma WhereMembership(m: seq<bool>)
    ensures forall d :: 0 <= d < |m| ==> (d in Where(m, true) <==> m[d]) && (d in Where(m, false) <==> !m[d])
  {
    forall d | 0 <= d < |m|
      ensures (d in Where(m, true) ==> m[d]) && (d in Where(m, false) ==> !m[d])
    {
      if d in Where(m, true) {
        var t :| 0 <= t < |Where(m, true)| && Where(m, true)[t] == d;
      }
      if d in Where(m, false) {
        var t :| 0 <= t < |Where(m, false)| && Where(m, false)[t] == d;
      }
    }
  }

  /** The two index lists together have one entry per position. */
  lemma {:induction false} WhereCount(m: seq<bool>)
    ensures |Where(m, false)| + |Where(m, true)| == |m|
  {
    if |m| > 0 {
      WhereCount(m[..|m| - 1]);
      WhereSnoc(m, false);
      WhereSnoc(m, true);
    }
  }

  /** No position holds v, so none is listed. */
  lemma {:induction false} WhereNone(m: seq<bool>, v: bool)
    requires forall d :: 0 <= d < |m| ==> m[d] != v
    ensures Where(m, v) == []
  {
    if |m| > 0 {
      WhereNone(m[..|m| - 1], v);
    }
  }

  // ---------------------------------------------------------------------
  // Scatter and Gather

  /** Entries whose index is not written keep their old value. */
  lemma {:induction false} ScatterOutside(base: Vector, idx: seq<nat>, vals: Vector, d: nat)
    requires |idx| == |vals| && Bounded(idx, |base|)
    requires d < |base| && d !in idx
    ensures Scatter(base, idx, vals)[d] == base[d]
  {
    if |idx| > 0 {
      var m := |idx| - 1;
      assert forall t :: 0 <= t < m ==> idx[..m][t] == idx[t];
      ScatterOutside(base, idx[..m], vals[..m], d);
    }
  }

  /** With distinct indices, every written index holds its value afterwards. */
  lemma {:induction false} ScatterAt(base: Vector, idx: seq<nat>, vals: Vector, t: nat)
    requires |idx| == |vals| && Bounded(idx, |base|) && Ascending(idx)
    requires t < |idx|
    ensures Scatter(base, idx, vals)[idx[t]] == vals[t]
  {
    var m := |idx| - 1;
    if t < m {
      assert idx[t] < idx[m];
      ScatterAt(base, idx[..m], vals[..m], t);
    }
  }

  /** Reading back the written indices returns the written values. */
  lemma GatherScatter(base: Vector, idx: seq<nat>, vals: Vector)
    requires |idx| == |vals| && Bounded(idx, |base|) && Ascending(idx)
    ensures Gather(Scatter(base, idx, vals), idx) == vals
  {
    forall t | 0 <= t < |idx|
      ensures Gather(Scatter(base, idx, vals), idx)[t] == vals[t]
    {
      ScatterAt(base, idx, vals, t);
    }
  }

  /** Reading indices that were not written returns the old values. */
  lemma GatherScatterElsewhere(base: Vector, idx: seq<nat>, vals: Vector, other: seq<nat>)
    requires |idx| == |vals| && Bounded(idx, |base|) && Bounded(other, |base|)
    requires forall t :: 0 <= t < |other| ==> other[t] !in idx
    ensures Gather(Scatter(base, idx, vals), other) == Gather(base, other)
  {
    forall t | 0 <= t < |other|
      ensures Gather(Scatter(base, idx, vals), other)[t] == Gather(base, other)[t]
    {
      ScatterOutside(base, idx, vals, other[t]);
    }
  }

  // ---------------------------------------------------------------------
  // Splitting a dot product along a mask

  lemma GatherPrefix(a: Vector, idx: seq<nat>, n: nat)
    requires n <= |a| && Bounded(idx, n)
    ensures Gather(a, idx) == Gather(a[..n], idx)
  {
  }

  lemma WhereSnoc(m: seq<bool>, v: bool)
    requires |m| > 0
    ensures Where(m, v) == Where(m[..|m| - 1], v) + (if m[|m| - 1] == v then [|m| - 1] else [])
  {
  }

  /** The dot product of a and b restricted to idx. */
  function DotAt(a: Vector, b: Vector, idx: seq<nat>): real
    requires |a| == |b| && Bounded(idx, |a|)
  {
    Dot(Gather(a, idx), Gather(b, idx))
  }

  lemma DotAtExtend(a: Vector, b: Vector, idx: seq<nat>, n: nat, taken: bool)
    requires |a| == |b| && n < |a| && Bounded(idx, n)
    ensures DotAt(a, b, idx + (if taken then [n] else []))
         == DotAt(a[..n], b[..n], idx) + (if taken then a[n] * b[n] else 0.0)
  {
    GatherPrefix(a, idx, n);
    GatherPrefix(b, idx, n);
    if taken {
      var ga, gb := Gather(a, idx + [n]), Gather(b, idx + [n]);
      assert ga[..|idx|] == Gather(a, idx);
      assert gb[..|idx|] == Gather(b, idx);
    } else {
      assert idx + [] == idx;
    }
  }

  /**
   * A dot product is the sum of its restrictions to the positions where the
   * mask is false and to those where it is true.
   */
  lemma {:induction false} DotPartition(m: seq<bool>, a: Vector, b: Vector)
    requires |a| == |b| == |m|
    ensures Dot(a, b) == DotAt(a, b, Where(m, false)) + DotAt(a, b, Where(m, true))
  {
    if |m| > 0 {
      var n := |m| - 1;
      var f, c := Where(m[..n], false), Where(m[..n], true);
      DotPartition(m[..n], a[..n], b[..n]);
      assert Dot(a, b) == Dot(a[..n], b[..n]) + a[n] * b[n];
      WhereSnoc(m, false);
      WhereSnoc(m, true);
      DotAtExtend(a, b, f, n, !m[n]);
      DotAtExtend(a, b, c, n, m[n]);
      if m[n] {
        assert Where(m, false) == f + [];
        assert Where(m, true) == c + [n];
      } else {
        assert Where(m, false) == f + [n];
        assert Where(m, true) == c + [];
      }
    }
  }
}
