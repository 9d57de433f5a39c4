/**
 * The partitioned solve of the assembled system: the DOFs with a known
 * displacement are split off, the reduced system on the free DOFs is solved,
 * the full displacement vector is put back together and the reactions are
 * K u - F. Equilibrium is that computation as a function of the global
 * arrays; the SpringFEASolver class runs it on its own state and writes the
 * results back into the nodes and elements.
 */
module PartitionedSolve {
  import opened LinearAlgebra
  import opened Indexing
  import opened GaussElim
  import opened FeaModel
  import opened Assembly

  /** What solve returns: displacements, reactions, free DOF indices, fixed DOF indices. */
  datatype Solution = Solution(u: Vector, reactions: Vector, freeIdx: seq<nat>, fixedIdx: seq<nat>)

  /** Arrays of one common size n: K is n x n, the others have n entries. */
  predicate WellSized(K: Matrix, F: Vector, fixed: seq<bool>, uKnown: Vector) {
    IsSquare(K, |F|) && |fixed| == |F| && |uKnown| == |F|
  }

  /** R = K u - F. */
  function Reactions(K: Matrix, F: Vector, u: Vector): (R: Vector)
    requires IsSquare(K, |F|) && |u| == |F|
    ensures |R| == |F|
  {
    Axpy(MatVec(K, u), -1.0, F)
  }

  /** Kff: the rows and columns of the free DOFs. */
  function FreeBlock(K: Matrix, free: seq<nat>): Matrix
    requires Bounded(free, |K|) && IsSquare(K, |K|)
  {
    Submatrix(K, free, free)
  }

  /** Kfc: the rows of the free DOFs, the columns of the fixed ones. */
  function CouplingBlock(K: Matrix, free: seq<nat>, known: seq<nat>): Matrix
    requires Bounded(free, |K|) && Bounded(known, |K|) && IsSquare(K, |K|)
  {
    Submatrix(K, free, known)
  }

  /** Ff, less Kfc uc when some displacements are known. */
  function ReducedRhs(K: Matrix, F: Vector, free: seq<nat>, known: seq<nat>, uc: Vector): (rhs: Vector)
    requires IsSquare(K, |F|) && Bounded(free, |F|) && Bounded(known, |F|) && |uc| == |known|
    ensures |rhs| == |free|
  {
    if |known| > 0 then Axpy(Gather(F, free), -1.0, MatVec(CouplingBlock(K, free, known), uc))
    else Gather(F, free)
  }

  /** The full displacement vector: zeros, then the free values, then the known ones. */
  function Compose(n: nat, free: seq<nat>, uf: Vector, known: seq<nat>, uc: Vector): (u: Vector)
    requires Bounded(free, n) && Bounded(known, n) && |uf| == |free| && |uc| == |known|
    ensures |u| == n
  {
    var u0 := Scatter(Zeros(n), free, uf);
    if |known| > 0 then Scatter(u0, known, uc) else u0
  }

  /** The solve on the global arrays K, F, fixed and uKnown. */
  function Equilibrium(K: Matrix, F: Vector, fixed: seq<bool>, uKnown: Vector): (r: Result<Solution>)
    requires WellSized(K, F, fixed, uKnown)
    ensures r.Failure? ==> r.error == StructuralSingularity
    ensures r.Success? ==> |r.value.u| == |F| && |r.value.reactions| == |F|
    ensures r.Success? ==> r.value.freeIdx == Where(fixed, false) && r.value.fixedIdx == Where(fixed, true)
  {
    var n := |F|;
    var free := Where(fixed, false);
    var known := Where(fixed, true);
    var uc := Gather(uKnown, known);
    if |free| == 0 then
      var u := Scatter(Zeros(n), known, uc);
      Success(Solution(u, Reactions(K, F, u), free, known))
    else
      match Solve(FreeBlock(K, free), ReducedRhs(K, F, free, known, uc))
      case Singular => Failure(StructuralSingularity)
      case Solved(uf) =>
        var u := Compose(n, free, uf, known, uc);
        Success(Solution(u, Reactions(K, F, u), free, known))
  }

  // ---------------------------------------------------------------------
  // Taking the displacement vector apart again

  lemma ComposeParts(n: nat, free: seq<nat>, uf: Vector, known: seq<nat>, uc: Vector)
    requires Bounded(free, n) && Bounded(known, n) && |uf| == |free| && |uc| == |known|
    requires Ascending(free) && Ascending(known)
    requires forall t :: 0 <= t < |free| ==> free[t] !in known
    ensures Gather(Compose(n, free, uf, known, uc), free) == uf
    ensures Gather(Compose(n, free, uf, known, uc), known) == uc
  {
    var u0 := Scatter(Zeros(n), free, uf);
    GatherScatter(Zeros(n), free, uf);
    if |known| > 0 {
      GatherScatter(u0, known, uc);
      GatherScatterElsewhere(u0, known, uc, free);
    }
  }

  /** Facts about the two index lists that every lemma below needs. */
  lemma Partition(fixed: seq<bool>)
    ensures forall t :: 0 <= t < |Where(fixed, false)| ==> Where(fixed, false)[t] !in Where(fixed, true)
    ensures forall d :: 0 <= d < |fixed| ==> (d in Where(fixed, true) <==> fixed[d])
    ensures forall d :: 0 <= d < |fixed| ==> (d in Where(fixed, false) <==> !fixed[d])
  {
    WhereMembership(fixed);
  }

  /**
   * Row d = free[t] of K v splits into the free part, Kff row t against the
   * free entries of v, and the coupling part, Kfc row t against the fixed ones.
   */
  lemma RowSplit(K: Matrix, fixed: seq<bool>, v: Vector, t: nat)
    requires IsSquare(K, |fixed|) && |v| == |fixed|
    requires t < |Where(fixed, false)|
    ensures var free, known := Where(fixed, false), Where(fixed, true);
            Dot(K[free[t]], v)
            == Dot(FreeBlock(K, free)[t], Gather(v, free)) + Dot(CouplingBlock(K, free, known)[t], Gather(v, known))
  {
    var free, known := Where(fixed, false), Where(fixed, true);
    DotPartition(fixed, K[free[t]], v);
    assert FreeBlock(K, free)[t] == Gather(K[free[t]], free);
    assert CouplingBlock(K, free, known)[t] == Gather(K[free[t]], known);
  }

  /** For the free DOF free[t], the reduced right-hand side plus Kfc uc is the load. */
  lemma RhsRow(K: Matrix, F: Vector, fixed: seq<bool>, uc: Vector, t: nat)
    requires IsSquare(K, |F|) && |fixed| == |F|
    requires |uc| == |Where(fixed, true)| && t < |Where(fixed, false)|
    ensures var free, known := Where(fixed, false), Where(fixed, true);
            ReducedRhs(K, F, free, known, uc)[t] + Dot(CouplingBlock(K, free, known)[t], uc) == F[free[t]]
  {
    var free, known := Where(fixed, false), Where(fixed, true);
    if |known| == 0 {
      assert CouplingBlock(K, free, known)[t] == [];
      assert uc == [];
    }
  }

  // ---------------------------------------------------------------------
  // Unfolding Equilibrium one branch at a time

  lemma EquilibriumReactions(K: Matrix, F: Vector, fixed: seq<bool>, uKnown: Vector)
    requires WellSized(K, F, fixed, uKnown) && Equilibrium(K, F, fixed, uKnown).Success?
    ensures var s := Equilibrium(K, F, fixed, uKnown).value;
            s.reactions == Reactions(K, F, s.u)
  {
  }

  lemma EquilibriumAllFixed(K: Matrix, F: Vector, fixed: seq<bool>, uKnown: Vector)
    requires WellSized(K, F, fixed, uKnown) && |Where(fixed, false)| == 0
    ensures Equilibrium(K, F, fixed, uKnown).Success?
    ensures Equilibrium(K, F, fixed, uKnown).value.u
         == Scatter(Zeros(|F|), Where(fixed, true), Gather(uKnown, Where(fixed, true)))
  {
  }

  lemma EquilibriumSomeFree(K: Matrix, F: Vector, fixed: seq<bool>, uKnown: Vector)
    requires WellSized(K, F, fixed, uKnown) && Equilibrium(K, F, fixed, uKnown).Success?
    requires |Where(fixed, false)| > 0
    ensures var free, known := Where(fixed, false), Where(fixed, true);
            var uc := Gather(uKnown, known);
            var sol := Solve(FreeBlock(K, free), ReducedRhs(K, F, free, known, uc));
            sol.Solved? && Equilibrium(K, F, fixed, uKnown).value.u == Compose(|F|, free, sol.x, known, uc)
  {
  }

  // ---------------------------------------------------------------------
  // What solve promises

  /** Every fixed DOF keeps its known displacement (zero unless prescribed). */
  lemma KnownDisplacementsKept(K: Matrix, F: Vector, fixed: seq<bool>, uKnown: Vector)
    requires WellSized(K, F, fixed, uKnown) && Equilibrium(K, F, fixed, uKnown).Success?
    ensures var u := Equilibrium(K, F, fixed, uKnown).value.u;
            forall d :: 0 <= d < |F| && fixed[d] ==> u[d] == uKnown[d]
  {
    var n := |F|;
    var free, known := Where(fixed, false), Where(fixed, true);
    var uc := Gather(uKnown, known);
    var u := Equilibrium(K, F, fixed, uKnown).value.u;
    Partition(fixed);
    if |free| == 0 {
      EquilibriumAllFixed(K, F, fixed, uKnown);
      GatherScatter(Zeros(n), known, uc);
    } else {
      EquilibriumSomeFree(K, F, fixed, uKnown);
      var uf := Solve(FreeBlock(K, free), ReducedRhs(K, F, free, known, uc)).x;
      ComposeParts(n, free, uf, known, uc);
    }
    assert Gather(u, known) == uc;
    forall d | 0 <= d < n && fixed[d]
      ensures u[d] == uKnown[d]
    {
      var t :| 0 <= t < |known| && known[t] == d;
      assert Gather(u, known)[t] == uc[t];
    }
  }

  /** The free DOF free[t] is in equilibrium: (K u)[free[t]] == F[free[t]]. */
  lemma FreeRowBalanced(K: Matrix, F: Vector, fixed: seq<bool>, uKnown: Vector, t: nat)
    requires WellSized(K, F, fixed, uKnown) && Equilibrium(K, F, fixed, uKnown).Success?
    requires t < |Where(fixed, false)|
    ensures var u := Equilibrium(K, F, fixed, uKnown).value.u;
            Dot(K[Where(fixed, false)[t]], u) == F[Where(fixed, false)[t]]
  {
    var n := |F|;
    var free, known := Where(fixed, false), Where(fixed, true);
    var uc := Gather(uKnown, known);
    var u := Equilibrium(K, F, fixed, uKnown).value.u;
    var Kff, rhs := FreeBlock(K, free), ReducedRhs(K, F, free, known, uc);
    EquilibriumSomeFree(K, F, fixed, uKnown);
    var uf := Solve(Kff, rhs).x;
    SolveSound(Kff, rhs);
    Partition(fixed);
    ComposeParts(n, free, uf, known, uc);
    RowSplit(K, fixed, u, t);
    RhsRow(K, F, fixed, uc, t);
    assert Dot(Kff[t], uf) == MatVec(Kff, uf)[t] == rhs[t];
  }

  /** At every free DOF the solution is in equilibrium, so the reaction there is zero. */
  lemma FreeReactionsVanish(K: Matrix, F: Vector, fixed: seq<bool>, uKnown: Vector)
    requires WellSized(K, F, fixed, uKnown) && Equilibrium(K, F, fixed, uKnown).Success?
    ensures var s := Equilibrium(K, F, fixed, uKnown).value;
            forall d :: 0 <= d < |F| && !fixed[d] ==> Dot(K[d], s.u) == F[d] && s.reactions[d] == 0.0
  {
    var free := Where(fixed, false);
    var s := Equilibrium(K, F, fixed, uKnown).value;
    Partition(fixed);
    EquilibriumReactions(K, F, fixed, uKnown);
    forall d | 0 <= d < |F| && !fixed[d]
      ensures Dot(K[d], s.u) == F[d] && s.reactions[d] == 0.0
    {
      var t :| 0 <= t < |free| && free[t] == d;
      FreeRowBalanced(K, F, fixed, uKnown, t);
      assert s.reactions[d] == MatVec(K, s.u)[d] + -1.0 * F[d];
    }
  }

  /** solve fails exactly when there are free DOFs and their reduced stiffness matrix is singular. */
  lemma FailsIffSingular(K: Matrix, F: Vector, fixed: seq<bool>, uKnown: Vector)
    requires WellSized(K, F, fixed, uKnown)
    ensures var free := Where(fixed, false);
            Equilibrium(K, F, fixed, uKnown).Failure? <==> |free| > 0 && IsSingular(FreeBlock(K, free))
  {
    var free, known := Where(fixed, false), Where(fixed, true);
    if |free| > 0 {
      SolveSingularIff(FreeBlock(K, free), ReducedRhs(K, F, free, known, Gather(uKnown, known)));
    }
  }

  /** A vector with the known values at the fixed DOFs and equilibrium at the free ones solves the reduced system. */
  lemma ReducedSystemHolds(K: Matrix, F: Vector, fixed: seq<bool>, uKnown: Vector, v: Vector)
    requires WellSized(K, F, fixed, uKnown) && |v| == |F|
    requires Gather(v, Where(fixed, true)) == Gather(uKnown, Where(fixed, true))
    requires forall d :: 0 <= d < |F| && !fixed[d] ==> Dot(K[d], v) == F[d]
    ensures var free, known := Where(fixed, false), Where(fixed, true);
            MatVec(FreeBlock(K, free), Gather(v, free)) == ReducedRhs(K, F, free, known, Gather(uKnown, known))
  {
    var free, known := Where(fixed, false), Where(fixed, true);
    var uc := Gather(uKnown, known);
    forall t | 0 <= t < |free|
      ensures MatVec(FreeBlock(K, free), Gather(v, free))[t] == ReducedRhs(K, F, free, known, uc)[t]
    {
      assert !fixed[free[t]];
      RowSplit(K, fixed, v, t);
      RhsRow(K, F, fixed, uc, t);
    }
  }

  /** Two vectors that agree on the fixed DOFs and on the free DOFs are equal. */
  lemma EqualOnBoth(fixed: seq<bool>, v: Vector, u: Vector)
    requires |v| == |u| == |fixed|
    requires Gather(v, Where(fixed, false)) == Gather(u, Where(fixed, false))
    requires forall d :: 0 <= d < |fixed| && fixed[d] ==> v[d] == u[d]
    ensures v == u
  {
    var free := Where(fixed, false);
    Partition(fixed);
    forall d | 0 <= d < |fixed| && !fixed[d]
      ensures v[d] == u[d]
    {
      var t :| 0 <= t < |free| && free[t] == d;
      assert Gather(v, free)[t] == Gather(u, free)[t];
    }
  }

  /** Such a vector's free part is the solution of a regular reduced system. */
  lemma FreePartSolves(K: Matrix, F: Vector, fixed: seq<bool>, uKnown: Vector, v: Vector)
    requires WellSized(K, F, fixed, uKnown) && |v| == |F|
    requires |Where(fixed, false)| > 0
    requires var free, known := Where(fixed, false), Where(fixed, true);
             Solve(FreeBlock(K, free), ReducedRhs(K, F, free, known, Gather(uKnown, known))).Solved?
    requires forall d :: 0 <= d < |F| && fixed[d] ==> v[d] == uKnown[d]
    requires forall d :: 0 <= d < |F| && !fixed[d] ==> Dot(K[d], v) == F[d]
    ensures var free, known := Where(fixed, false), Where(fixed, true);
            Gather(v, free) == Solve(FreeBlock(K, free), ReducedRhs(K, F, free, known, Gather(uKnown, known))).x
  {
    var free, known := Where(fixed, false), Where(fixed, true);
    var uc := Gather(uKnown, known);
    assert Gather(v, known) == uc;
    ReducedSystemHolds(K, F, fixed, uKnown, v);
    SolveUnique(FreeBlock(K, free), ReducedRhs(K, F, free, known, uc), Gather(v, free));
  }

  /** Such a vector also agrees with the solution at the free DOFs. */
  lemma AgreesOnFree(K: Matrix, F: Vector, fixed: seq<bool>, uKnown: Vector, v: Vector)
    requires WellSized(K, F, fixed, uKnown) && Equilibrium(K, F, fixed, uKnown).Success?
    requires |v| == |F|
    requires forall d :: 0 <= d < |F| && fixed[d] ==> v[d] == uKnown[d]
    requires forall d :: 0 <= d < |F| && !fixed[d] ==> Dot(K[d], v) == F[d]
    ensures Gather(v, Where(fixed, false)) == Gather(Equilibrium(K, F, fixed, uKnown).value.u, Where(fixed, false))
  {
    var free, known := Where(fixed, false), Where(fixed, true);
    if |free| > 0 {
      var uc := Gather(uKnown, known);
      EquilibriumSomeFree(K, F, fixed, uKnown);
      var uf := Solve(FreeBlock(K, free), ReducedRhs(K, F, free, known, uc)).x;
      Partition(fixed);
      ComposeParts(|F|, free, uf, known, uc);
      FreePartSolves(K, F, fixed, uKnown, v);
    }
  }

  /**
   * The solution is the only displacement vector that takes the known values
   * at the fixed DOFs and is in equilibrium at the free ones.
   */
  lemma SolutionUnique(K: Matrix, F: Vector, fixed: seq<bool>, uKnown: Vector, v: Vector)
    requires WellSized(K, F, fixed, uKnown) && Equilibrium(K, F, fixed, uKnown).Success?
    requires |v| == |F|
    requires forall d :: 0 <= d < |F| && fixed[d] ==> v[d] == uKnown[d]
    requires forall d :: 0 <= d < |F| && !fixed[d] ==> Dot(K[d], v) == F[d]
    ensures v == Equilibrium(K, F, fixed, uKnown).value.u
  {
    var u := Equilibrium(K, F, fixed, uKnown).value.u;
    KnownDisplacementsKept(K, F, fixed, uKnown);
    AgreesOnFree(K, F, fixed, uKnown, v);
    EqualOnBoth(fixed, v, u);
  }

  /** With an assembled stiffness matrix the reactions balance the applied loads: sum(R) + sum(F) == 0. */
  lemma ReactionsBalanceLoads(es: seq<SpringElement>, F: Vector, fixed: seq<bool>, uKnown: Vector)
    requires AllInRange(es, |F|) && |fixed| == |F| && |uKnown| == |F|
    requires Equilibrium(GlobalStiffness(|F|, es), F, fixed, uKnown).Success?
    ensures Sum(Equilibrium(GlobalStiffness(|F|, es), F, fixed, uKnown).value.reactions) + Sum(F) == 0.0
  {
    var K := GlobalStiffness(|F|, es);
    var u := Equilibrium(K, F, fixed, uKnown).value.u;
    EquilibriumReactions(K, F, fixed, uKnown);
    SumAxpy(MatVec(K, u), -1.0, F);
    InternalForcesBalance(|F|, es, u);
  }

  /** With every DOF fixed, solve succeeds and returns the known displacements themselves, with R = K u - F. */
  lemma AllFixedKeepsKnown(K: Matrix, F: Vector, fixed: seq<bool>, uKnown: Vector)
    requires WellSized(K, F, fixed, uKnown)
    requires forall d :: 0 <= d < |fixed| ==> fixed[d]
    ensures Equilibrium(K, F, fixed, uKnown).Success?
    ensures Equilibrium(K, F, fixed, uKnown).value.u == uKnown
    ensures forall d :: 0 <= d < |F| ==>
              Equilibrium(K, F, fixed, uKnown).value.reactions[d] == Dot(K[d], uKnown) - F[d]
  {
    WhereNone(fixed, false);
    EquilibriumAllFixed(K, F, fixed, uKnown);
    KnownDisplacementsKept(K, F, fixed, uKnown);
    var s := Equilibrium(K, F, fixed, uKnown).value;
    assert s.u == uKnown;
    EquilibriumReactions(K, F, fixed, uKnown);
    forall d | 0 <= d < |F|
      ensures s.reactions[d] == Dot(K[d], uKnown) - F[d]
    {
      assert s.reactions[d] == MatVec(K, s.u)[d] + -1.0 * F[d];
    }
  }

  /**
   * A load applied at a fixed DOF changes neither whether solve succeeds nor
   * the displacements; it only shifts the reaction at that DOF by the same amount.
   */
  lemma FixedLoadsIgnored(K: Matrix, F: Vector, F': Vector, fixed: seq<bool>, uKnown: Vector)
    requires WellSized(K, F, fixed, uKnown) && |F'| == |F|
    requires forall d :: 0 <= d < |F| && !fixed[d] ==> F'[d] == F[d]
    ensures Equilibrium(K, F, fixed, uKnown).Success? <==> Equilibrium(K, F', fixed, uKnown).Success?
    ensures Equilibrium(K, F, fixed, uKnown).Success? ==>
              var s, s' := Equilibrium(K, F, fixed, uKnown).value, Equilibrium(K, F', fixed, uKnown).value;
              && s'.u == s.u
              && forall d :: 0 <= d < |F| ==> s'.reactions[d] + F'[d] == s.reactions[d] + F[d]
  {
    FailsIffSingular(K, F, fixed, uKnown);
    FailsIffSingular(K, F', fixed, uKnown);
    if Equilibrium(K, F, fixed, uKnown).Success? {
      SameDisplacements(K, F, F', fixed, uKnown);
      ShiftedReactions(K, F, F', fixed, uKnown);
    }
  }

  lemma SameDisplacements(K: Matrix, F: Vector, F': Vector, fixed: seq<bool>, uKnown: Vector)
    requires WellSized(K, F, fixed, uKnown) && |F'| == |F|
    requires forall d :: 0 <= d < |F| && !fixed[d] ==> F'[d] == F[d]
    requires Equilibrium(K, F, fixed, uKnown).Success? && Equilibrium(K, F', fixed, uKnown).Success?
    ensures Equilibrium(K, F', fixed, uKnown).value.u == Equilibrium(K, F, fixed, uKnown).value.u
  {
    var v := Equilibrium(K, F', fixed, uKnown).value.u;
    KnownDisplacementsKept(K, F', fixed, uKnown);
    FreeReactionsVanish(K, F', fixed, uKnown);
    SolutionUnique(K, F, fixed, uKnown, v);
  }

  lemma ShiftedReactions(K: Matrix, F: Vector, F': Vector, fixed: seq<bool>, uKnown: Vector)
    requires WellSized(K, F, fixed, uKnown) && |F'| == |F|
    requires Equilibrium(K, F, fixed, uKnown).Success? && Equilibrium(K, F', fixed, uKnown).Success?
    requires Equilibrium(K, F', fixed, uKnown).value.u == Equilibrium(K, F, fixed, uKnown).value.u
    ensures var s, s' := Equilibrium(K, F, fixed, uKnown).value, Equilibrium(K, F', fixed, uKnown).value;
            forall d :: 0 <= d < |F| ==> s'.reactions[d] + F'[d] == s.reactions[d] + F[d]
  {
    var s, s' := Equilibrium(K, F, fixed, uKnown).value, Equilibrium(K, F', fixed, uKnown).value;
    EquilibriumReactions(K, F, fixed, uKnown);
    EquilibriumReactions(K, F', fixed, uKnown);
    forall d | 0 <= d < |F|
      ensures s'.reactions[d] + F'[d] == s.reactions[d] + F[d]
    {
      assert s.reactions[d] == MatVec(K, s.u)[d] + -1.0 * F[d];
      assert s'.reactions[d] == MatVec(K, s'.u)[d] + -1.0 * F'[d];
    }
  }
}
