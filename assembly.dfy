/**
 * The assembled global stiffness matrix: what `assemble` leaves in K after
 * calling add_to_global for every element, in list order, on a zero matrix,
 * and the structural facts about it (symmetry, zero row, column and total
 * sums, and K u as the sum of the elements' nodal actions).
 */
module Assembly {
  import opened LinearAlgebra
  import opened FeaModel

  /** Every element's end DOFs index a system of n DOFs. */
  predicate AllInRange(es: seq<SpringElement>, n: nat) {
    forall e :: 0 <= e < |es| ==> es[e].InRange(n)
  }

  /** Entry (a, b) of a zero matrix after scatter-adding the elements of es in order. */
  function Entry(es: seq<SpringElement>, a: int, b: int): real {
    if |es| == 0 then 0.0 else Entry(es[..|es| - 1], a, b) + es[|es| - 1].Contribution(a, b)
  }

  /** The n x n global stiffness matrix of es. */
  function GlobalStiffness(n: nat, es: seq<SpringElement>): (K: Matrix)
    ensures IsSquare(K, n)
  {
    seq(n, a => seq(n, b => Entry(es, a, b)))
  }

  /** Column b of A. */
  function Column(A: Matrix, b: nat): Vector
    requires forall a :: 0 <= a < |A| ==> b < |A[a]|
  {
    seq(|A|, a requires 0 <= a < |A| => A[a][b])
  }

  // ---------------------------------------------------------------------
  // Symmetry

  lemma {:induction false} EntrySymmetric(es: seq<SpringElement>, a: int, b: int)
    ensures Entry(es, a, b) == Entry(es, b, a)
  {
    if |es| > 0 {
      EntrySymmetric(es[..|es| - 1], a, b);
    }
  }

  /** The assembled matrix is symmetric. */
  lemma GlobalStiffnessSymmetric(n: nat, es: seq<SpringElement>)
    ensures forall a, b :: 0 <= a < n && 0 <= b < n ==>
              GlobalStiffness(n, es)[a][b] == GlobalStiffness(n, es)[b][a]
  {
    forall a, b | 0 <= a < n && 0 <= b < n
      ensures GlobalStiffness(n, es)[a][b] == GlobalStiffness(n, es)[b][a]
    {
      EntrySymmetric(es, a, b);
    }
  }

  // ---------------------------------------------------------------------
  // One element's contribution, row by row

  /** Entry (a, p) of [[k, -k], [-k, k]] scattered at DOFs p and q. */
  function WeightAtP(a: int, p: nat, q: nat, k: real): real {
    (if a == p then k else 0.0) + (if a == q then -k else 0.0)
  }

  /** Entry (a, q) of [[k, -k], [-k, k]] scattered at DOFs p and q. */
  function WeightAtQ(a: int, p: nat, q: nat, k: real): real {
    (if a == p then -k else 0.0) + (if a == q then k else 0.0)
  }

  /**
   * Row a of the 2 x 2 matrix [[k, -k], [-k, k]] scattered into an n x n
   * matrix at DOFs p and q: a spike at p plus a spike at q.
   */
  function PairRow(n: nat, p: nat, q: nat, k: real, a: int): (row: Vector)
    requires p < n && q < n
    ensures |row| == n
  {
    Axpy(Spike(n, p, WeightAtP(a, p, q, k)), 1.0, Spike(n, q, WeightAtQ(a, p, q, k)))
  }

  /** Row a of Ke() scattered at the element's DOFs. */
  function ElementRow(e: SpringElement, n: nat, a: int): (row: Vector)
    requires e.InRange(n)
    ensures |row| == n
  {
    PairRow(n, e.i.dof, e.j.dof, e.k, a)
  }

  /** ElementRow holds exactly what add_to_global adds to row a. */
  lemma ElementRowEntries(e: SpringElement, n: nat, a: int)
    requires e.InRange(n)
    ensures forall b :: 0 <= b < n ==> ElementRow(e, n, a)[b] == e.Contribution(a, b)
  {
  }

  /** Every row of a scattered element matrix sums to zero. */
  lemma PairRowSum(n: nat, p: nat, q: nat, k: real, a: int)
    requires p < n && q < n
    ensures Sum(PairRow(n, p, q, k, a)) == 0.0
  {
    var x, y := WeightAtP(a, p, q, k), WeightAtQ(a, p, q, k);
    SumAxpy(Spike(n, p, x), 1.0, Spike(n, q, y));
    SumSpike(n, p, x);
    SumSpike(n, q, y);
  }

  lemma GlobalStiffnessSnoc(n: nat, es: seq<SpringElement>, a: nat)
    requires |es| > 0 && a < n && es[|es| - 1].InRange(n)
    ensures GlobalStiffness(n, es)[a]
         == Axpy(GlobalStiffness(n, es[..|es| - 1])[a], 1.0, ElementRow(es[|es| - 1], n, a))
  {
    ElementRowEntries(es[|es| - 1], n, a);
  }

  lemma GlobalStiffnessEmpty(n: nat, es: seq<SpringElement>, a: nat)
    requires |es| == 0 && a < n
    ensures GlobalStiffness(n, es)[a] == Zeros(n)
  {
  }

  // ---------------------------------------------------------------------
  // Zero sums

  /** Every row of the assembled matrix sums to zero. */
  lemma {:induction false} RowSumsZero(n: nat, es: seq<SpringElement>, a: nat)
    requires AllInRange(es, n) && a < n
    ensures Sum(GlobalStiffness(n, es)[a]) == 0.0
  {
    if |es| == 0 {
      GlobalStiffnessEmpty(n, es, a);
      SumZeros(n);
    } else {
      var m := |es| - 1;
      GlobalStiffnessSnoc(n, es, a);
      SumAxpy(GlobalStiffness(n, es[..m])[a], 1.0, ElementRow(es[m], n, a));
      RowSumsZero(n, es[..m], a);
      PairRowSum(n, es[m].i.dof, es[m].j.dof, es[m].k, a);
    }
  }

  /** Every column of the assembled matrix sums to zero. */
  lemma ColumnSumsZero(n: nat, es: seq<SpringElement>, b: nat)
    requires AllInRange(es, n) && b < n
    ensures Sum(Column(GlobalStiffness(n, es), b)) == 0.0
  {
    GlobalStiffnessSymmetric(n, es);
    assert Column(GlobalStiffness(n, es), b) == GlobalStiffness(n, es)[b];
    RowSumsZero(n, es, b);
  }

  /** All entries of the assembled matrix add up to zero. */
  lemma TotalSumZero(n: nat, es: seq<SpringElement>)
    requires AllInRange(es, n)
    ensures MatrixSum(GlobalStiffness(n, es)) == 0.0
  {
    forall a | 0 <= a < n
      ensures Sum(GlobalStiffness(n, es)[a]) == 0.0
    {
      RowSumsZero(n, es, a);
    }
    MatrixSumOfZeroRows(GlobalStiffness(n, es));
  }

  // ---------------------------------------------------------------------
  // K u and the elements' nodal actions

  /** The forces k (u[p] - u[q]) at p and k (u[q] - u[p]) at q, in a vector of length n. */
  function PairAction(n: nat, p: nat, q: nat, k: real, u: Vector): (v: Vector)
    requires p < n && q < n && |u| == n
    ensures |v| == n
  {
    Axpy(Spike(n, p, k * (u[p] - u[q])), 1.0, Spike(n, q, k * (u[q] - u[p])))
  }

  /** The nodal actions of e, placed at its two DOFs in a vector of length n. */
  function ActionVector(e: SpringElement, n: nat, u: Vector): (v: Vector)
    requires e.InRange(n) && |u| == n
    ensures |v| == n
  {
    Axpy(Spike(n, e.i.dof, e.NodalActions(u).0), 1.0, Spike(n, e.j.dof, e.NodalActions(u).1))
  }

  lemma ActionVectorIsPairAction(e: SpringElement, n: nat, u: Vector)
    requires e.InRange(n) && |u| == n
    ensures ActionVector(e, n, u) == PairAction(n, e.i.dof, e.j.dof, e.k, u)
  {
    assert e.NodalActions(u).0 == e.k * (u[e.i.dof] - u[e.j.dof]);
    assert e.NodalActions(u).1 == e.k * (u[e.j.dof] - u[e.i.dof]);
  }

  /** The sum, over the elements of es, of their nodal actions. */
  function NodalResultant(n: nat, es: seq<SpringElement>, u: Vector): (v: Vector)
    requires AllInRange(es, n) && |u| == n
    ensures |v| == n
  {
    if |es| == 0 then Zeros(n)
    else Axpy(NodalResultant(n, es[..|es| - 1], u), 1.0, ActionVector(es[|es| - 1], n, u))
  }

  lemma DotTwoSpikes(n: nat, p: nat, x: real, q: nat, y: real, u: Vector)
    requires p < n && q < n && |u| == n
    ensures Dot(Axpy(Spike(n, p, x), 1.0, Spike(n, q, y)), u) == x * u[p] + 1.0 * (y * u[q])
  {
    DotAxpyLeft(Spike(n, p, x), 1.0, Spike(n, q, y), u);
    DotSpike(n, p, x, u);
    DotSpike(n, q, y, u);
  }

  lemma ActionAlgebra(n: nat, p: nat, q: nat, k: real, u: Vector, a: nat)
    requires p < n && q < n && a < n && |u| == n
    ensures WeightAtP(a, p, q, k) * u[p] + 1.0 * (WeightAtQ(a, p, q, k) * u[q]) == PairAction(n, p, q, k, u)[a]
  {
  }

  /** Row a of a scattered element matrix times u is the nodal action at DOF a. */
  lemma PairRowTimes(n: nat, p: nat, q: nat, k: real, u: Vector, a: nat)
    requires p < n && q < n && a < n && |u| == n
    ensures Dot(PairRow(n, p, q, k, a), u) == PairAction(n, p, q, k, u)[a]
  {
    DotTwoSpikes(n, p, WeightAtP(a, p, q, k), q, WeightAtQ(a, p, q, k), u);
    ActionAlgebra(n, p, q, k, u, a);
  }

  /** K u is, node by node, the sum of the nodal actions of the elements. */
  lemma {:induction false} StiffnessTimes(n: nat, es: seq<SpringElement>, u: Vector)
    requires AllInRange(es, n) && |u| == n
    ensures MatVec(GlobalStiffness(n, es), u) == NodalResultant(n, es, u)
  {
    if |es| == 0 {
      forall a | 0 <= a < n
        ensures MatVec(GlobalStiffness(n, es), u)[a] == 0.0
      {
        GlobalStiffnessEmpty(n, es, a);
        DotZerosLeft(u);
      }
    } else {
      var m := |es| - 1;
      var e := es[m];
      StiffnessTimes(n, es[..m], u);
      forall a | 0 <= a < n
        ensures MatVec(GlobalStiffness(n, es), u)[a] == NodalResultant(n, es, u)[a]
      {
        GlobalStiffnessSnoc(n, es, a);
        DotAxpyLeft(GlobalStiffness(n, es[..m])[a], 1.0, ElementRow(e, n, a), u);
        assert MatVec(GlobalStiffness(n, es[..m]), u)[a] == Dot(GlobalStiffness(n, es[..m])[a], u);
        PairRowTimes(n, e.i.dof, e.j.dof, e.k, u, a);
        ActionVectorIsPairAction(e, n, u);
      }
    }
  }

  /** The nodal actions of every element cancel out. */
  lemma {:induction false} ResultantBalance(n: nat, es: seq<SpringElement>, u: Vector)
    requires AllInRange(es, n) && |u| == n
    ensures Sum(NodalResultant(n, es, u)) == 0.0
  {
    if |es| == 0 {
      SumZeros(n);
    } else {
      var m := |es| - 1;
      var e := es[m];
      var f := e.NodalActions(u);
      ResultantBalance(n, es[..m], u);
      SumAxpy(NodalResultant(n, es[..m], u), 1.0, ActionVector(e, n, u));
      SumAxpy(Spike(n, e.i.dof, f.0), 1.0, Spike(n, e.j.dof, f.1));
      SumSpike(n, e.i.dof, f.0);
      SumSpike(n, e.j.dof, f.1);
    }
  }

  /** The internal forces K u of any displacement add up to zero. */
  lemma InternalForcesBalance(n: nat, es: seq<SpringElement>, u: Vector)
    requires AllInRange(es, n) && |u| == n
    ensures Sum(MatVec(GlobalStiffness(n, es), u)) == 0.0
  {
    StiffnessTimes(n, es, u);
    ResultantBalance(n, es, u);
  }

  // ---------------------------------------------------------------------
  // Positive semidefiniteness

  /** u . Ke u for one spring: x a + y b with x = k (a - b) and y = k (b - a), which is k (a - b)^2. */
  lemma ElementEnergy(k: real, a: real, b: real, x: real, y: real)
    requires k > 0.0 && x == k * (a - b) && y == k * (b - a)
    ensures x * a + 1.0 * (y * b) >= 0.0
  {
    var d := a - b;
    assert x * a + 1.0 * (y * b) == k * (d * d);
    assert d * d >= 0.0;
  }

  /** The work of a spring's nodal actions on the displacements of its two ends. */
  lemma ActionEnergy(e: SpringElement, u: Vector)
    requires e.InRange(|u|) && e.k > 0.0
    ensures e.NodalActions(u).0 * u[e.i.dof] + 1.0 * (e.NodalActions(u).1 * u[e.j.dof]) >= 0.0
  {
    var f := e.NodalActions(u);
    assert f.0 == e.k * (u[e.i.dof] - u[e.j.dof]) && f.1 == e.k * (u[e.j.dof] - u[e.i.dof]);
    ElementEnergy(e.k, u[e.i.dof], u[e.j.dof], f.0, f.1);
  }

  /** Two spikes whose work on u is non-negative. */
  lemma SpikesWork(n: nat, p: nat, q: nat, u: Vector, x: real, y: real)
    requires p < n && q < n && |u| == n && x * u[p] + 1.0 * (y * u[q]) >= 0.0
    ensures Dot(Axpy(Spike(n, p, x), 1.0, Spike(n, q, y)), u) >= 0.0
  {
    DotTwoSpikes(n, p, x, q, y, u);
  }

  /** The nodal actions of one spring of positive stiffness do non-negative work on u. */
  lemma ActionWork(e: SpringElement, n: nat, u: Vector)
    requires e.InRange(n) && |u| == n && e.k > 0.0
    ensures Dot(ActionVector(e, n, u), u) >= 0.0
  {
    ActionEnergy(e, u);
    SpikesWork(n, e.i.dof, e.j.dof, u, e.NodalActions(u).0, e.NodalActions(u).1);
  }

  /** The same holds for the nodal actions of all springs together. */
  lemma {:induction false} ResultantWork(n: nat, es: seq<SpringElement>, u: Vector)
    requires AllInRange(es, n) && |u| == n
    requires forall e :: 0 <= e < |es| ==> es[e].k > 0.0
    ensures Dot(NodalResultant(n, es, u), u) >= 0.0
  {
    if |es| == 0 {
      DotZerosLeft(u);
    } else {
      var m := |es| - 1;
      ResultantWork(n, es[..m], u);
      ActionWork(es[m], n, u);
      DotAxpyLeft(NodalResultant(n, es[..m], u), 1.0, ActionVector(es[m], n, u), u);
    }
  }

  /** With every stiffness positive, the assembled matrix is positive semidefinite: u . K u >= 0. */
  lemma StiffnessPositiveSemidefinite(n: nat, es: seq<SpringElement>, u: Vector)
    requires AllInRange(es, n) && |u| == n
    requires forall e :: 0 <= e < |es| ==> es[e].k > 0.0
    ensures Dot(u, MatVec(GlobalStiffness(n, es), u)) >= 0.0
  {
    StiffnessTimes(n, es, u);
    ResultantWork(n, es, u);
    DotSymmetric(u, MatVec(GlobalStiffness(n, es), u));
  }
}
