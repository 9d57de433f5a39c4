/**
 * Dense real vectors and matrices: the exact-arithmetic counterpart of the
 * numpy arrays the solver works on. Sums and dot products are folded from
 * the back, so that extending a vector by one entry unfolds one step.
 */
module LinearAlgebra {

  type Vector = seq<real>
  type Matrix = seq<seq<real>>

  /** A with `rows` rows, each of length `cols`. */
  predicate IsMatrix(A: Matrix, rows: nat, cols: nat) {
    |A| == rows && forall r :: 0 <= r < rows ==> |A[r]| == cols
  }

  predicate IsSquare(A: Matrix, n: nat) {
    IsMatrix(A, n, n)
  }

  function Zeros(n: nat): Vector {
    seq(n, _ => 0.0)
  }

  function ZeroMatrix(n: nat): Matrix {
    seq(n, _ => Zeros(n))
  }

  /** The vector of length n that is x at index p and 0 elsewhere. */
  function Spike(n: nat, p: nat, x: real): Vector {
    seq(n, d => if d == p then x else 0.0)
  }

  /** a + s * b, entry by entry. */
  function Axpy(a: Vector, s: real, b: Vector): Vector
    requires |a| == |b|
  {
    seq(|a|, c requires 0 <= c < |a| => a[c] + s * b[c])
  }

  function Sum(v: Vector): real {
    if |v| == 0 then 0.0 else Sum(v[..|v| - 1]) + v[|v| - 1]
  }

  function Dot(a: Vector, b: Vector): real
    requires |a| == |b|
  {
    if |a| == 0 then 0.0 else Dot(a[..|a| - 1], b[..|b| - 1]) + a[|a| - 1] * b[|a| - 1]
  }

  /** A @ x. */
  function MatVec(A: Matrix, x: Vector): Vector
    requires forall r :: 0 <= r < |A| ==> |A[r]| == |x|
  {
    seq(|A|, r requires 0 <= r < |A| => Dot(A[r], x))
  }

  /** The sum of every entry of A (numpy's A.sum()). */
  function MatrixSum(A: Matrix): real {
    if |A| == 0 then 0.0 else MatrixSum(A[..|A| - 1]) + Sum(A[|A| - 1])
  }

  lemma AxpyPrefix(a: Vector, s: real, b: Vector, m: nat)
    requires |a| == |b| && m <= |a|
    ensures Axpy(a, s, b)[..m] == Axpy(a[..m], s, b[..m])
  {
    forall c | 0 <= c < m
      ensures Axpy(a, s, b)[..m][c] == Axpy(a[..m], s, b[..m])[c]
    {
    }
  }

  // ---------------------------------------------------------------------
  // Linearity of Sum and Dot

  lemma {:induction false} SumAxpy(a: Vector, s: real, b: Vector)
    requires |a| == |b|
    ensures Sum(Axpy(a, s, b)) == Sum(a) + s * Sum(b)
  {
    if |a| > 0 {
      var m := |a| - 1;
      SumAxpy(a[..m], s, b[..m]);
      AxpyPrefix(a, s, b, m);
      assert s * (Sum(b[..m]) + b[m]) == s * Sum(b[..m]) + s * b[m];
    }
  }

  lemma {:induction false} DotAxpyLeft(a: Vector, s: real, b: Vector, y: Vector)
    requires |a| == |b| == |y|
    ensures Dot(Axpy(a, s, b), y) == Dot(a, y) + s * Dot(b, y)
  {
    if |a| > 0 {
      var m := |a| - 1;
      DotAxpyLeft(a[..m], s, b[..m], y[..m]);
      AxpyPrefix(a, s, b, m);
      assert (a[m] + s * b[m]) * y[m] == a[m] * y[m] + s * (b[m] * y[m]);
      assert s * (Dot(b[..m], y[..m]) + b[m] * y[m]) == s * Dot(b[..m], y[..m]) + s * (b[m] * y[m]);
    }
  }

  lemma {:induction false} DotSymmetric(a: Vector, b: Vector)
    requires |a| == |b|
    ensures Dot(a, b) == Dot(b, a)
  {
    if |a| > 0 {
      DotSymmetric(a[..|a| - 1], b[..|b| - 1]);
    }
  }

  /** Splitting off the first entry of a dot product. */
  lemma {:induction false} DotCons(a: Vector, b: Vector)
    requires |a| == |b| > 0
    ensures Dot(a, b) == a[0] * b[0] + Dot(a[1..], b[1..])
  {
    var m := |a| - 1;
    if m > 0 {
      DotCons(a[..m], b[..m]);
      assert a[..m][1..] == a[1..][..m - 1];
      assert b[..m][1..] == b[1..][..m - 1];
    }
  }

  lemma {:induction false} DotZerosLeft(y: Vector)
    ensures Dot(Zeros(|y|), y) == 0.0
  {
    if |y| > 0 {
      var m := |y| - 1;
      DotZerosLeft(y[..m]);
      assert Zeros(|y|)[..m] == Zeros(m);
    }
  }

  lemma DotZerosRight(a: Vector)
    ensures Dot(a, Zeros(|a|)) == 0.0
  {
    DotZerosLeft(a);
    DotSymmetric(a, Zeros(|a|));
  }

  lemma {:induction false} DotSpike(n: nat, p: nat, x: real, y: Vector)
    requires p < n == |y|
    ensures Dot(Spike(n, p, x), y) == x * y[p]
  {
    var m := n - 1;
    if p == m {
      assert Spike(n, p, x)[..m] == Zeros(m);
      DotZerosLeft(y[..m]);
    } else {
      assert Spike(n, p, x)[..m] == Spike(m, p, x);
      DotSpike(m, p, x, y[..m]);
    }
  }

  lemma {:induction false} SumZeros(n: nat)
    ensures Sum(Zeros(n)) == 0.0
  {
    if n > 0 {
      assert Zeros(n)[..n - 1] == Zeros(n - 1);
      SumZeros(n - 1);
    }
  }

  lemma {:induction false} SumSpike(n: nat, p: nat, x: real)
    requires p < n
    ensures Sum(Spike(n, p, x)) == x
  {
    var m := n - 1;
    if p == m {
      assert Spike(n, p, x)[..m] == Zeros(m);
      SumZeros(m);
    } else {
      assert Spike(n, p, x)[..m] == Spike(m, p, x);
      SumSpike(m, p, x);
    }
  }

  /** A matrix whose rows all sum to zero has entries summing to zero. */
  lemma {:induction false} MatrixSumOfZeroRows(A: Matrix)
    requires forall r :: 0 <= r < |A| ==> Sum(A[r]) == 0.0
    ensures MatrixSum(A) == 0.0
  {
    if |A| > 0 {
      MatrixSumOfZeroRows(A[..|A| - 1]);
    }
  }
}
