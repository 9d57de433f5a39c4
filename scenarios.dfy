/**
 * The worked examples of the engine, stated for symbolic stiffness, load and
 * prescribed displacement: a single spring under an end load, a two-spring
 * chain pulled at its far end, and a spring with a free node it does not touch.
 */
module Scenarios {
  import opened LinearAlgebra
  import opened Indexing
  import opened GaussElim
  import opened FeaModel
  import opened PartitionedSolve
  import opened Assembly

  lemma Dot2(a: Vector, b: Vector)
    requires |a| == |b| == 2
    ensures Dot(a, b) == a[0] * b[0] + a[1] * b[1]
  {
    assert a[..1][..0] == [] && b[..1][..0] == [];
    assert Dot(a[..1], b[..1]) == a[0] * b[0];
  }

  lemma Dot3(a: Vector, b: Vector)
    requires |a| == |b| == 3
    ensures Dot(a, b) == a[0] * b[0] + a[1] * b[1] + a[2] * b[2]
  {
    Dot2(a[..2], b[..2]);
  }

  lemma GatherOne(v: Vector, d: nat)
    requires d < |v|
    ensures Gather(v, [d]) == [v[d]]
  {
  }

  lemma GatherTwo(v: Vector, d: nat, d': nat)
    requires d < |v| && d' < |v|
    ensures Gather(v, [d, d']) == [v[d], v[d']]
  {
  }

  lemma WhereFixedFree(fixed: seq<bool>)
    requires |fixed| == 2 && fixed[0] && !fixed[1]
    ensures Where(fixed, false) == [1] && Where(fixed, true) == [0]
  {
    WhereSnoc(fixed, false);
    WhereSnoc(fixed, true);
    WhereSnoc(fixed[..1], false);
    WhereSnoc(fixed[..1], true);
    assert fixed[..1][..0] == [];
  }

  /** A non-zero 1 x 1 matrix has no non-zero null vector. */
  lemma RegularOne(a: real)
    requires a != 0.0
    ensures !IsSingular([[a]])
  {
    forall z | |z| == 1 && MatVec([[a]], z) == Zeros(1)
      ensures z == Zeros(1)
    {
      assert [a][..0] == [] && z[..0] == [];
      assert Dot([a], z) == a * z[0];
      assert MatVec([[a]], z)[0] == 0.0;
    }
  }

  /** One spring from node 1 to node 2 assembles to [[k, -k], [-k, k]]. */
  lemma SingleSpringStiffness(e: SpringElement)
    requires e.i.id == 1 && e.j.id == 2
    ensures var K := GlobalStiffness(2, [e]);
            K[0][0] == e.k && K[0][1] == -e.k && K[1][0] == -e.k && K[1][1] == e.k
  {
    assert [e][..0] == [];
    assert e.Connectivity() == (0, 1);
    assert e.Ke() == [[e.k, -e.k], [-e.k, e.k]];
    assert Entry([e], 0, 0) == e.Contribution(0, 0) == e.k;
    assert Entry([e], 0, 1) == e.Contribution(0, 1) == -e.k;
    assert Entry([e], 1, 0) == e.Contribution(1, 0) == -e.k;
    assert Entry([e], 1, 1) == e.Contribution(1, 1) == e.k;
  }

  predicate SingleSpringSystem(K: Matrix, F: Vector, fixed: seq<bool>, uKnown: Vector, k: real, P: real) {
    && IsSquare(K, 2) && K[0][0] == k && K[0][1] == -k && K[1][0] == -k && K[1][1] == k
    && |F| == 2 && F[0] == 0.0 && F[1] == P
    && |fixed| == 2 && fixed[0] && !fixed[1]
    && |uKnown| == 2 && uKnown[0] == 0.0
  }

  lemma SingleSpringForces(K: Matrix, k: real, P: real)
    requires k > 0.0 && IsSquare(K, 2) && K[0][0] == k && K[0][1] == -k && K[1][0] == -k && K[1][1] == k
    ensures MatVec(K, [0.0, P / k]) == [-P, P]
  {
    var v := [0.0, P / k];
    assert k * (P / k) == P;
    Dot2(K[0], v);
    Dot2(K[1], v);
    assert Dot(K[0], v) == -P;
    assert Dot(K[1], v) == P;
  }

  lemma SingleSpringSucceeds(K: Matrix, F: Vector, fixed: seq<bool>, uKnown: Vector, k: real, P: real)
    requires k > 0.0 && SingleSpringSystem(K, F, fixed, uKnown, k, P)
    ensures WellSized(K, F, fixed, uKnown) && Equilibrium(K, F, fixed, uKnown).Success?
  {
    WhereFixedFree(fixed);
    GatherOne(K[1], 1);
    assert FreeBlock(K, [1]) == [[k]];
    RegularOne(k);
    FailsIffSingular(K, F, fixed, uKnown);
  }

  lemma SingleSpring(K: Matrix, F: Vector, fixed: seq<bool>, uKnown: Vector, k: real, P: real)
    requires k > 0.0 && SingleSpringSystem(K, F, fixed, uKnown, k, P)
    ensures Equilibrium(K, F, fixed, uKnown) == Success(Solution([0.0, P / k], [-P, 0.0], [1], [0]))
  {
    SingleSpringSucceeds(K, F, fixed, uKnown, k, P);
    WhereFixedFree(fixed);
    var v := [0.0, P / k];
    SingleSpringForces(K, k, P);
    SolutionUnique(K, F, fixed, uKnown, v);
    EquilibriumReactions(K, F, fixed, uKnown);
    assert Reactions(K, F, v) == [-P, 0.0];
  }

  /** The spring then carries the load as tension. */
  lemma SingleSpringAxialForce(e: SpringElement, P: real)
    requires e.i.id == 1 && e.j.id == 2 && e.k > 0.0
    ensures e.AxialForce([0.0, P / e.k]) == P
  {
    assert e.k * (P / e.k - 0.0) == P;
  }

  /**
   * From the element to the result: the spring assembled by GlobalStiffness,
   * node 1 supported and load P at node 2, solves to u = [0, P/k] and R = [-P, 0],
   * and the spring then carries tension P.
   */
  lemma SingleSpringAssembled(e: SpringElement, F: Vector, fixed: seq<bool>, uKnown: Vector, P: real)
    requires e.i.id == 1 && e.j.id == 2 && e.k > 0.0
    requires |F| == 2 && F[0] == 0.0 && F[1] == P
    requires |fixed| == 2 && fixed[0] && !fixed[1]
    requires |uKnown| == 2 && uKnown[0] == 0.0
    ensures Equilibrium(GlobalStiffness(2, [e]), F, fixed, uKnown)
         == Success(Solution([0.0, P / e.k], [-P, 0.0], [1], [0]))
    ensures e.AxialForce(Equilibrium(GlobalStiffness(2, [e]), F, fixed, uKnown).value.u) == P
  {
    SingleSpringStiffness(e);
    SingleSpring(GlobalStiffness(2, [e]), F, fixed, uKnown, e.k, P);
    SingleSpringAxialForce(e, P);
  }

  // ---------------------------------------------------------------------
  // Three nodes in series, both springs of stiffness k, node 1 held at 0 and
  // node 3 moved to w, no loads.

  lemma WhereEnds(fixed: seq<bool>)
    requires |fixed| == 3 && fixed[0] && !fixed[1] && fixed[2]
    ensures Where(fixed, false) == [1] && Where(fixed, true) == [0, 2]
  {
    var m := fixed[..2];
    assert |m| == 2 && m[0] && !m[1];
    WhereFixedFree(m);
    assert m == fixed[..|fixed| - 1];
    WhereSnoc(fixed, false);
    WhereSnoc(fixed, true);
  }

  /** Springs 1-2 and 2-3 of stiffness k assemble to the tridiagonal matrix of ChainSystem. */
  lemma ChainStiffness(e1: SpringElement, e2: SpringElement, k: real)
    requires e1.i.id == 1 && e1.j.id == 2 && e2.i.id == 2 && e2.j.id == 3 && e1.k == k && e2.k == k
    ensures var K := GlobalStiffness(3, [e1, e2]);
            && K[0][0] == k && K[0][1] == -k && K[0][2] == 0.0
            && K[1][0] == -k && K[1][1] == 2.0 * k && K[1][2] == -k
            && K[2][0] == 0.0 && K[2][1] == -k && K[2][2] == k
  {
    var es := [e1, e2];
    assert es[..1] == [e1] && [e1][..0] == [];
    assert e1.Connectivity() == (0, 1) && e2.Connectivity() == (1, 2);
    assert e1.Ke() == [[k, -k], [-k, k]] && e2.Ke() == [[k, -k], [-k, k]];
    forall a, b | 0 <= a < 3 && 0 <= b < 3
      ensures Entry(es, a, b) == e1.Contribution(a, b) + e2.Contribution(a, b)
    {
      assert Entry(es, a, b) == Entry(es[..1], a, b) + e2.Contribution(a, b);
      assert Entry([e1], a, b) == Entry([e1][..0], a, b) + e1.Contribution(a, b);
    }
  }

  predicate ChainSystem(K: Matrix, F: Vector, fixed: seq<bool>, uKnown: Vector, k: real, w: real) {
    && IsSquare(K, 3)
    && K[0][0] == k && K[0][1] == -k && K[0][2] == 0.0
    && K[1][0] == -k && K[1][1] == 2.0 * k && K[1][2] == -k
    && K[2][0] == 0.0 && K[2][1] == -k && K[2][2] == k
    && F == Zeros(3)
    && |fixed| == 3 && fixed[0] && !fixed[1] && fixed[2]
    && |uKnown| == 3 && uKnown[0] == 0.0 && uKnown[2] == w
  }

  lemma ChainForces(K: Matrix, k: real, w: real)
    requires IsSquare(K, 3)
    requires K[0][0] == k && K[0][1] == -k && K[0][2] == 0.0
    requires K[1][0] == -k && K[1][1] == 2.0 * k && K[1][2] == -k
    requires K[2][0] == 0.0 && K[2][1] == -k && K[2][2] == k
    ensures MatVec(K, [0.0, w / 2.0, w]) == [-k * w / 2.0, 0.0, k * w / 2.0]
  {
    var v := [0.0, w / 2.0, w];
    Dot3(K[0], v);
    Dot3(K[1], v);
    Dot3(K[2], v);
    assert Dot(K[0], v) == -k * w / 2.0;
    assert Dot(K[1], v) == 0.0;
    assert Dot(K[2], v) == k * w / 2.0;
  }

  lemma ChainSucceeds(K: Matrix, F: Vector, fixed: seq<bool>, uKnown: Vector, k: real, w: real)
    requires k > 0.0 && ChainSystem(K, F, fixed, uKnown, k, w)
    ensures WellSized(K, F, fixed, uKnown) && Equilibrium(K, F, fixed, uKnown).Success?
  {
    WhereEnds(fixed);
    GatherOne(K[1], 1);
    assert FreeBlock(K, [1]) == [[2.0 * k]];
    RegularOne(2.0 * k);
    FailsIffSingular(K, F, fixed, uKnown);
  }

  /** The middle node moves half way and the two supports pull with equal and opposite forces. */
  lemma Chain(K: Matrix, F: Vector, fixed: seq<bool>, uKnown: Vector, k: real, w: real)
    requires k > 0.0 && ChainSystem(K, F, fixed, uKnown, k, w)
    ensures Equilibrium(K, F, fixed, uKnown)
         == Success(Solution([0.0, w / 2.0, w], [-k * w / 2.0, 0.0, k * w / 2.0], [1], [0, 2]))
  {
    ChainSucceeds(K, F, fixed, uKnown, k, w);
    WhereEnds(fixed);
    var v := [0.0, w / 2.0, w];
    ChainForces(K, k, w);
    assert Dot(K[1], v) == MatVec(K, v)[1] == F[1];
    assert forall d :: 0 <= d < 3 && !fixed[d] ==> d == 1;
    SolutionUnique(K, F, fixed, uKnown, v);
    EquilibriumReactions(K, F, fixed, uKnown);
    assert Reactions(K, F, v) == [-k * w / 2.0, 0.0, k * w / 2.0];
  }

  /** Both springs carry the same tension k w / 2. */
  lemma ChainAxialForces(e1: SpringElement, e2: SpringElement, k: real, w: real)
    requires e1.i.id == 1 && e1.j.id == 2 && e2.i.id == 2 && e2.j.id == 3 && e1.k == k && e2.k == k
    ensures e1.AxialForce([0.0, w / 2.0, w]) == k * w / 2.0
    ensures e2.AxialForce([0.0, w / 2.0, w]) == k * w / 2.0
  {
  }

  /**
   * From the elements to the result: springs 1-2 and 2-3 of stiffness k
   * assembled by GlobalStiffness, node 1 held at 0, node 3 moved to w and no
   * loads, solve to u = [0, w/2, w] with reactions -k w/2 and k w/2, and both
   * springs then carry tension k w/2.
   */
  lemma ChainAssembled(e1: SpringElement, e2: SpringElement, fixed: seq<bool>, uKnown: Vector, k: real, w: real)
    requires e1.i.id == 1 && e1.j.id == 2 && e2.i.id == 2 && e2.j.id == 3 && e1.k == k && e2.k == k
    requires k > 0.0
    requires |fixed| == 3 && fixed[0] && !fixed[1] && fixed[2]
    requires |uKnown| == 3 && uKnown[0] == 0.0 && uKnown[2] == w
    ensures Equilibrium(GlobalStiffness(3, [e1, e2]), Zeros(3), fixed, uKnown)
         == Success(Solution([0.0, w / 2.0, w], [-k * w / 2.0, 0.0, k * w / 2.0], [1], [0, 2]))
    ensures var u := Equilibrium(GlobalStiffness(3, [e1, e2]), Zeros(3), fixed, uKnown).value.u;
            e1.AxialForce(u) == k * w / 2.0 && e2.AxialForce(u) == k * w / 2.0
  {
    ChainStiffness(e1, e2, k);
    Chain(GlobalStiffness(3, [e1, e2]), Zeros(3), fixed, uKnown, k, w);
    ChainAxialForces(e1, e2, k, w);
  }

  // ---------------------------------------------------------------------
  // A spring between nodes 1 and 2, node 1 held, node 3 free and unconnected.

  lemma WhereFirst(fixed: seq<bool>)
    requires |fixed| == 3 && fixed[0] && !fixed[1] && !fixed[2]
    ensures Where(fixed, false) == [1, 2]
  {
    var m := fixed[..2];
    assert |m| == 2 && m[0] && !m[1];
    WhereFixedFree(m);
    assert m == fixed[..|fixed| - 1];
    WhereSnoc(fixed, false);
  }

  /** The unconnected free node makes the reduced matrix singular, and the solve reports it. */
  lemma DisconnectedNode(K: Matrix, F: Vector, fixed: seq<bool>, uKnown: Vector, k: real)
    requires IsSquare(K, 3) && |F| == 3 && |uKnown| == 3
    requires K[0][0] == k && K[0][1] == -k && K[0][2] == 0.0
    requires K[1][0] == -k && K[1][1] == k && K[1][2] == 0.0
    requires K[2][0] == 0.0 && K[2][1] == 0.0 && K[2][2] == 0.0
    requires |fixed| == 3 && fixed[0] && !fixed[1] && !fixed[2]
    ensures Equilibrium(K, F, fixed, uKnown) == Failure(StructuralSingularity)
  {
    WhereFirst(fixed);
    GatherTwo(K[1], 1, 2);
    GatherTwo(K[2], 1, 2);
    var Kff := FreeBlock(K, [1, 2]);
    assert Kff == [[k, 0.0], [0.0, 0.0]];
    var z := [0.0, 1.0];
    Dot2(Kff[0], z);
    Dot2(Kff[1], z);
    assert MatVec(Kff, z) == Zeros(2);
    assert z != Zeros(2) by { assert z[1] != Zeros(2)[1]; }
    FailsIffSingular(K, F, fixed, uKnown);
  }
}
