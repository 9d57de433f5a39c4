/**
 * Exact Gaussian elimination over the reals, standing in for the dense solve
 * of the reduced system (numpy.linalg.solve, which raises LinAlgError on a
 * singular matrix). Column 0 is eliminated with the first row whose leading
 * entry is non-zero as pivot; the remaining (n-1) x (n-1) system is solved
 * recursively and the pivot's unknown is recovered by back substitution.
 */
module GaussElim {
  import opened LinearAlgebra

  datatype LinSolution = Solved(x: Vector) | Singular

  /** The first row at or after `from` whose leading entry is non-zero, or |A| if none. */
  function FindPivot(A: Matrix, from: nat): (p: nat)
    requires forall r :: 0 <= r < |A| ==> |A[r]| > 0
    requires from <= |A|
    ensures from <= p <= |A|
    ensures p < |A| ==> A[p][0] != 0.0
    ensures forall r :: from <= r < p ==> A[r][0] == 0.0
    decreases |A| - from
  {
    if from == |A| then |A|
    else if A[from][0] != 0.0 then from
    else FindPivot(A, from + 1)
  }

  /** Row t of the reduced system comes from row SkipRow(p, t) of the full one. */
  function SkipRow(p: nat, t: nat): nat {
    if t < p then t else t + 1
  }

  /** The multiple of pivot row p that clears column 0 of row r. */
  function Multiplier(A: Matrix, p: nat, r: nat): real
    requires p < |A| && r < |A| && |A[p]| > 0 && |A[r]| > 0 && A[p][0] != 0.0
  {
    A[r][0] / A[p][0]
  }

  /** Rows other than p, minus the multiple of row p that clears column 0, without column 0. */
  function Reduce(A: Matrix, p: nat): (B: Matrix)
    requires |A| > 0 && IsSquare(A, |A|) && p < |A| && A[p][0] != 0.0
    ensures IsSquare(B, |A| - 1)
  {
    seq(|A| - 1, t requires 0 <= t < |A| - 1 =>
      var r := SkipRow(p, t);
      Axpy(A[r][1..], -Multiplier(A, p, r), A[p][1..]))
  }

  /** The same row operations applied to the right-hand side. */
  function ReduceRhs(A: Matrix, b: Vector, p: nat): Vector
    requires |A| == |b| > 0 && IsSquare(A, |A|) && p < |A| && A[p][0] != 0.0
  {
    seq(|b| - 1, t requires 0 <= t < |b| - 1 =>
      var r := SkipRow(p, t);
      b[r] - Multiplier(A, p, r) * b[p])
  }

  /** The unknown of column 0, from row p and the other unknowns y. */
  function BackSubstitute(A: Matrix, b: Vector, p: nat, y: Vector): real
    requires |A| == |b| > 0 && IsSquare(A, |A|) && p < |A| && A[p][0] != 0.0
    requires |y| == |A| - 1
  {
    (b[p] - Dot(A[p][1..], y)) / A[p][0]
  }

  function Solve(A: Matrix, b: Vector): (r: LinSolution)
    requires IsSquare(A, |b|)
    ensures r.Solved? ==> |r.x| == |b|
    decreases |b|
  {
    if |b| == 0 then Solved([])
    else
      var p := FindPivot(A, 0);
      if p == |A| then Singular
      else
        match Solve(Reduce(A, p), ReduceRhs(A, b, p))
        case Singular => Singular
        case Solved(y) => Solved([BackSubstitute(A, b, p, y)] + y)
  }

  /** Elimination finds a pivot at every step. */
  predicate Regular(A: Matrix)
    requires IsSquare(A, |A|)
    decreases |A|
  {
    |A| == 0 || (var p := FindPivot(A, 0); p < |A| && Regular(Reduce(A, p)))
  }

  /** A has a non-zero null vector, so A x = b has no unique solution. */
  ghost predicate IsSingular(A: Matrix)
    requires IsSquare(A, |A|)
  {
    exists z :: |z| == |A| && z != Zeros(|A|) && MatVec(A, z) == Zeros(|A|)
  }

  /** The null vector that a failed elimination exhibits. */
  function NullVector(A: Matrix): (z: Vector)
    requires IsSquare(A, |A|) && !Regular(A)
    ensures |z| == |A|
    decreases |A|
  {
    var p := FindPivot(A, 0);
    if p == |A| then [1.0] + Zeros(|A| - 1)
    else [BackSubstitute(A, Zeros(|A|), p, NullVector(Reduce(A, p)))] + NullVector(Reduce(A, p))
  }

  // ---------------------------------------------------------------------
  // One elimination step

  /**
   * The residual of reduced row t is the residual of the row it came from
   * minus the same multiple of the pivot row's residual.
   */
  lemma ReduceResidual(A: Matrix, b: Vector, p: nat, x: Vector, t: nat, r: nat, row: Vector, rhs: real, f: real)
    requires |A| == |b| == |x| > 0 && IsSquare(A, |A|) && p < |A| && A[p][0] != 0.0
    requires t < |A| - 1 && r == SkipRow(p, t)
    requires row == Reduce(A, p)[t] && rhs == ReduceRhs(A, b, p)[t] && f == Multiplier(A, p, r)
    ensures Dot(row, x[1..]) - rhs == (Dot(A[r], x) - b[r]) - f * (Dot(A[p], x) - b[p])
  {
    ReducedEntries(A, b, p, t, r);
    RowResidual(A[r], A[p], f, x, b[r], b[p], row, rhs);
  }

  lemma ReducedEntries(A: Matrix, b: Vector, p: nat, t: nat, r: nat)
    requires |A| == |b| > 0 && IsSquare(A, |A|) && p < |A| && A[p][0] != 0.0
    requires t < |A| - 1 && r == SkipRow(p, t)
    ensures && Reduce(A, p)[t] == Axpy(A[r][1..], -Multiplier(A, p, r), A[p][1..])
            && ReduceRhs(A, b, p)[t] == b[r] - Multiplier(A, p, r) * b[p]
  {
  }


  /** Subtracting f times row ap from row ar, where f clears the leading entry, in residual form. */
  lemma RowResidual(ar: Vector, ap: Vector, f: real, x: Vector, br: real, bp: real, row: Vector, rhs: real)
    requires |ar| == |ap| == |x| > 0 && ap[0] != 0.0 && f == ar[0] / ap[0]
    requires row == Axpy(ar[1..], -f, ap[1..]) && rhs == br - f * bp
    ensures Dot(row, x[1..]) - rhs == (Dot(ar, x) - br) - f * (Dot(ap, x) - bp)
  {
    assert f * ap[0] == ar[0];
    EliminatedRow(ar, ap, f, x);
    ScaleDifference(f, Dot(ap, x), bp);
  }

  /** The row ar - f ap, whose leading entry is zero, without that entry. */
  lemma EliminatedRow(ar: Vector, ap: Vector, f: real, x: Vector)
    requires |ar| == |ap| == |x| > 0 && f * ap[0] == ar[0]
    ensures Dot(Axpy(ar[1..], -f, ap[1..]), x[1..]) == Dot(ar, x) + (-f) * Dot(ap, x)
  {
    var c := Axpy(ar, -f, ap);
    assert c[0] == 0.0;
    forall t | 0 <= t < |c| - 1
      ensures c[1..][t] == Axpy(ar[1..], -f, ap[1..])[t]
    {
    }
    assert c[1..] == Axpy(ar[1..], -f, ap[1..]);
    DotCons(c, x);
    DotAxpyLeft(ar, -f, ap, x);
  }

  lemma ScaleDifference(f: real, a: real, b: real)
    ensures f * (a - b) == f * a - f * b
    ensures (-f) * a == -(f * a)
  {
  }

  /** If the reduced system is satisfied, back substitution satisfies the full one. */
  lemma BackSubstitution(A: Matrix, b: Vector, p: nat, y: Vector)
    requires |A| == |b| > 0 && IsSquare(A, |A|) && p < |A| && A[p][0] != 0.0
    requires |y| == |A| - 1
    requires MatVec(Reduce(A, p), y) == ReduceRhs(A, b, p)
    ensures MatVec(A, [BackSubstitute(A, b, p, y)] + y) == b
  {
    var x := [BackSubstitute(A, b, p, y)] + y;
    PivotRowSolved(A, b, p, y, x);
    forall r | 0 <= r < |A|
      ensures MatVec(A, x)[r] == b[r]
    {
      if r != p {
        OtherRowSolved(A, b, p, y, x, r);
      }
    }
  }

  /** The back-substituted unknown satisfies the pivot row. */
  lemma PivotRowSolved(A: Matrix, b: Vector, p: nat, y: Vector, x: Vector)
    requires |A| == |b| > 0 && IsSquare(A, |A|) && p < |A| && A[p][0] != 0.0
    requires |y| == |A| - 1 && x == [BackSubstitute(A, b, p, y)] + y
    ensures Dot(A[p], x) == b[p]
  {
    assert x[1..] == y;
    DotCons(A[p], x);
    assert A[p][0] * x[0] == b[p] - Dot(A[p][1..], y);
  }

  /** Every other row is satisfied because its reduced row is. */
  lemma OtherRowSolved(A: Matrix, b: Vector, p: nat, y: Vector, x: Vector, r: nat)
    requires |A| == |b| > 0 && IsSquare(A, |A|) && p < |A| && A[p][0] != 0.0
    requires |y| == |A| - 1 && |x| == |A| && x[1..] == y
    requires MatVec(Reduce(A, p), y) == ReduceRhs(A, b, p)
    requires Dot(A[p], x) == b[p]
    requires r < |A| && r != p
    ensures Dot(A[r], x) == b[r]
  {
    var t := if r < p then r else r - 1;
    ReduceResidual(A, b, p, x, t, r, Reduce(A, p)[t], ReduceRhs(A, b, p)[t], Multiplier(A, p, r));
    assert MatVec(Reduce(A, p), y)[t] == ReduceRhs(A, b, p)[t];
  }

  lemma ReduceZeroRhs(A: Matrix, p: nat)
    requires |A| > 0 && IsSquare(A, |A|) && p < |A| && A[p][0] != 0.0
    ensures ReduceRhs(A, Zeros(|A|), p) == Zeros(|A| - 1)
  {
  }

  // ---------------------------------------------------------------------
  // What Solve promises

  /** A returned solution solves the system. */
  lemma {:induction false} SolveSound(A: Matrix, b: Vector)
    requires IsSquare(A, |b|) && Solve(A, b).Solved?
    ensures MatVec(A, Solve(A, b).x) == b
    decreases |b|
  {
    if |b| > 0 {
      var p := FindPivot(A, 0);
      var B, c := Reduce(A, p), ReduceRhs(A, b, p);
      SolveSound(B, c);
      BackSubstitution(A, b, p, Solve(B, c).x);
    }
  }

  /** Solve fails exactly when elimination runs out of pivots. */
  lemma {:induction false} SolveFailsIffIrregular(A: Matrix, b: Vector)
    requires IsSquare(A, |b|)
    ensures Solve(A, b).Singular? <==> !Regular(A)
    decreases |b|
  {
    if |b| > 0 {
      var p := FindPivot(A, 0);
      if p < |A| {
        SolveFailsIffIrregular(Reduce(A, p), ReduceRhs(A, b, p));
      }
    }
  }

  lemma {:induction false} NullVectorIsNull(A: Matrix)
    requires IsSquare(A, |A|) && !Regular(A)
    ensures |NullVector(A)| == |A|
    ensures NullVector(A) != Zeros(|A|)
    ensures MatVec(A, NullVector(A)) == Zeros(|A|)
    decreases |A|
  {
    var n := |A|;
    var p := FindPivot(A, 0);
    var z := NullVector(A);
    if p == n {
      assert z[0] == 1.0;
      forall r | 0 <= r < n
        ensures MatVec(A, z)[r] == 0.0
      {
        DotCons(A[r], z);
        assert z[1..] == Zeros(n - 1);
        DotZerosRight(A[r][1..]);
      }
    } else {
      var B := Reduce(A, p);
      NullVectorIsNull(B);
      ReduceZeroRhs(A, p);
      BackSubstitution(A, Zeros(n), p, NullVector(B));
      assert z[1..] == NullVector(B) != Zeros(n - 1);
      assert Zeros(n)[1..] == Zeros(n - 1);
    }
  }

  /** When elimination succeeds, only the zero vector is mapped to zero. */
  lemma {:induction false} RegularInjective(A: Matrix, z: Vector)
    requires IsSquare(A, |A|) && Regular(A)
    requires |z| == |A| && MatVec(A, z) == Zeros(|A|)
    ensures z == Zeros(|A|)
    decreases |A|
  {
    var n := |A|;
    if n > 0 {
      var p := FindPivot(A, 0);
      var B := Reduce(A, p);
      var y := z[1..];
      ReduceNull(A, p, z);
      assert MatVec(B, y) == Zeros(n - 1);
      RegularInjective(B, y);
      assert Dot(A[p], z) == MatVec(A, z)[p] == 0.0;
      PivotRowForcesZero(A[p], z);
    }
  }

  /** If the rest of z is zero and a row with a non-zero leading entry annihilates z, z is zero. */
  lemma PivotRowForcesZero(row: Vector, z: Vector)
    requires |row| == |z| > 0 && row[0] != 0.0
    requires z[1..] == Zeros(|z| - 1) && Dot(row, z) == 0.0
    ensures z == Zeros(|z|)
  {
    DotCons(row, z);
    DotZerosRight(row[1..]);
    NonZeroFactor(row[0], z[0], Dot(row[1..], z[1..]));
    assert z == [z[0]] + z[1..];
  }

  /** A null vector of A, without its first entry, is a null vector of the reduced matrix. */
  lemma ReduceNull(A: Matrix, p: nat, z: Vector)
    requires |A| == |z| > 0 && IsSquare(A, |A|) && p < |A| && A[p][0] != 0.0
    requires MatVec(A, z) == Zeros(|A|)
    ensures MatVec(Reduce(A, p), z[1..]) == Zeros(|A| - 1)
  {
    var n := |A|;
    forall t | 0 <= t < n - 1
      ensures MatVec(Reduce(A, p), z[1..])[t] == 0.0
    {
      var r := SkipRow(p, t);
      ReduceResidual(A, Zeros(n), p, z, t, r, Reduce(A, p)[t], ReduceRhs(A, Zeros(n), p)[t], Multiplier(A, p, r));
      assert MatVec(A, z)[r] == 0.0;
      assert MatVec(A, z)[p] == 0.0;
    }
  }

  lemma NonZeroFactor(a: real, x: real, rest: real)
    requires a != 0.0 && rest == 0.0 && a * x + rest == 0.0
    ensures x == 0.0
  {
  }

  /** Solve reports a singular matrix exactly when the matrix is singular. */
  lemma SolveSingularIff(A: Matrix, b: Vector)
    requires IsSquare(A, |b|)
    ensures Solve(A, b).Singular? <==> IsSingular(A)
  {
    SolveFailsIffIrregular(A, b);
    if Solve(A, b).Singular? {
      NullVectorIsNull(A);
    } else if IsSingular(A) {
      var z :| |z| == |A| && z != Zeros(|A|) && MatVec(A, z) == Zeros(|A|);
      RegularInjective(A, z);
    }
  }

  /** A returned solution is the only solution. */
  lemma SolveUnique(A: Matrix, b: Vector, y: Vector)
    requires IsSquare(A, |b|) && Solve(A, b).Solved?
    requires |y| == |b| && MatVec(A, y) == b
    ensures y == Solve(A, b).x
  {
    var x := Solve(A, b).x;
    SolveSound(A, b);
    SolveFailsIffIrregular(A, b);
    var d := Axpy(y, -1.0, x);
    forall r | 0 <= r < |A|
      ensures MatVec(A, d)[r] == 0.0
    {
      DotSymmetric(A[r], d);
      DotAxpyLeft(y, -1.0, x, A[r]);
      DotSymmetric(y, A[r]);
      DotSymmetric(x, A[r]);
      assert Dot(A[r], y) == b[r] && Dot(A[r], x) == b[r];
    }
    assert MatVec(A, d) == Zeros(|A|);
    RegularInjective(A, d);
    forall c | 0 <= c < |y|
      ensures y[c] == x[c]
    {
      assert d[c] == 0.0;
    }
  }
}
