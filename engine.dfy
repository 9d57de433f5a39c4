/**
 * SpringFEASolver: the object that owns the global arrays, assembles them
 * from its nodes and elements and, after a solve, writes the displacements
 * back into the nodes and the axial forces into the elements.
 */
module Engine {
  import opened LinearAlgebra
  import opened FeaModel
  import opened Assembly
  import opened PartitionedSolve

  /** The current contents of a two-dimensional array, row by row. */
  function Snapshot(A: array2<real>): (M: Matrix)
    reads A
    ensures IsMatrix(M, A.Length0, A.Length1)
    ensures forall a, b :: 0 <= a < A.Length0 && 0 <= b < A.Length1 ==> M[a][b] == A[a, b]
  {
    seq(A.Length0, a requires 0 <= a < A.Length0 reads A =>
      seq(A.Length1, b requires 0 <= b < A.Length1 reads A => A[a, b]))
  }

  /** An array whose entries are those of M has M as its snapshot. */
  lemma SnapshotIs(A: array2<real>, M: Matrix)
    requires IsMatrix(M, A.Length0, A.Length1)
    requires forall a, b :: 0 <= a < A.Length0 && 0 <= b < A.Length1 ==> A[a, b] == M[a][b]
    ensures Snapshot(A) == M
  {
    forall a | 0 <= a < A.Length0
      ensures Snapshot(A)[a] == M[a]
    {
    }
  }

  /**
   * The node at list position d has id d + 1, so its DOF is d: the position
   * the solver reads its inputs from and writes its displacement to.
   */
  predicate Numbered(nodes: seq<Node>) {
    forall d :: 0 <= d < |nodes| ==> nodes[d].id == d + 1
  }

  class SpringFEASolver {
    const nodes: seq<Node>
    const elements: seq<SpringElement>
    const n: nat                 // total number of DOFs, one per node
    var K: array2<real>          // global stiffness matrix
    var F: Vector                // global load vector
    var fixed: seq<bool>         // mask of the DOFs with a known displacement
    var uKnown: Vector           // the known displacements (0 where none is prescribed)

    /**
     * The arrays have n entries per axis, every element's DOFs index them,
     * and K is either still the zero matrix of construction or the assembled
     * stiffness matrix of the elements.
     */
    predicate Valid()
      reads this, K
    {
      && n == |nodes| && Numbered(nodes) && AllInRange(elements, n)
      && K.Length0 == n && K.Length1 == n
      && |F| == n && |fixed| == n && |uKnown| == n
      && (Snapshot(K) == ZeroMatrix(n) || Snapshot(K) == GlobalStiffness(n, elements))
    }

    /** The nodal loads, in the order of the node list. */
    function LoadVector(): (v: Vector)
      reads nodes
      ensures |v| == |nodes| && forall d :: 0 <= d < |nodes| ==> v[d] == nodes[d].force
    {
      seq(|nodes|, d requires 0 <= d < |nodes| reads nodes => nodes[d].force)
    }

    /** Which nodes have a known displacement. */
    function FixedMask(): (m: seq<bool>)
      reads nodes
      ensures |m| == |nodes| && forall d :: 0 <= d < |nodes| ==> m[d] == nodes[d].fixed
    {
      seq(|nodes|, d requires 0 <= d < |nodes| reads nodes => nodes[d].fixed)
    }

    /** The prescribed displacement of a prescribed node, 0 for every other node. */
    function KnownDisplacements(): (v: Vector)
      reads nodes
      ensures |v| == |nodes|
      ensures forall d :: 0 <= d < |nodes| ==> v[d] == if nodes[d].prescribed then nodes[d].uPrescribed else 0.0
    {
      seq(|nodes|, d requires 0 <= d < |nodes| reads nodes =>
        if nodes[d].prescribed then nodes[d].uPrescribed else 0.0)
    }

    /** The axial force of every element, in element order. */
    function ElementForces(): (f: seq<real>)
      reads elements
      ensures |f| == |elements| && forall e :: 0 <= e < |elements| ==> f[e] == elements[e].axial
    {
      seq(|elements|, e requires 0 <= e < |elements| reads elements => elements[e].axial)
    }

    /** One DOF per node; all global arrays start out zero and nothing is fixed. */
    constructor (ns: seq<Node>, es: seq<SpringElement>)
      requires Numbered(ns) && AllInRange(es, |ns|)
      ensures nodes == ns && elements == es && n == |ns|
      ensures fresh(K) && Snapshot(K) == ZeroMatrix(n)
      ensures F == Zeros(n) && fixed == seq(n, _ => false) && uKnown == Zeros(n)
      ensures Valid()
    {
      nodes, elements, n := ns, es, |ns|;
      K := new real[|ns|, |ns|]((_, _) => 0.0);
      F, fixed, uKnown := Zeros(|ns|), seq(|ns|, _ => false), Zeros(|ns|);
      new;
      SnapshotIs(K, ZeroMatrix(n));
    }

    /** The loop of assemble: scatter-add every element, in list order, into a fresh zero matrix. */
    method StiffnessMatrix() returns (A: array2<real>)
      requires AllInRange(elements, n)
      ensures fresh(A) && A.Length0 == n && A.Length1 == n
      ensures Snapshot(A) == GlobalStiffness(n, elements)
    {
      A := new real[n, n]((_, _) => 0.0);
      for e := 0 to |elements|
        invariant forall a, b :: 0 <= a < n && 0 <= b < n ==> A[a, b] == Entry(elements[..e], a, b)
      {
        elements[e].AddToGlobal(A);
        assert elements[..e + 1][..e] == elements[..e];
      }
      assert elements[..|elements|] == elements;
      SnapshotIs(A, GlobalStiffness(n, elements));
    }

    /**
     * Assemble K from the elements and copy the loads, the fixed mask and the
     * known displacements from the nodes.
     */
    method Assemble() returns (Kout: array2<real>)
      requires Valid()
      modifies this
      ensures Valid()
      ensures fresh(Kout) && K == Kout && Snapshot(K) == GlobalStiffness(n, elements)
      ensures F == LoadVector() && fixed == FixedMask() && uKnown == KnownDisplacements()
    {
      Kout := StiffnessMatrix();
      K := Kout;
      F, fixed, uKnown := LoadVector(), FixedMask(), KnownDisplacements();
    }

    /**
     * Both states Valid allows sum to zero, so the test `K.sum() == 0` that
     * decides whether to assemble is passed every time.
     */
    lemma GuardAlwaysHolds()
      requires Valid()
      ensures MatrixSum(Snapshot(K)) == 0.0
    {
      if Snapshot(K) == ZeroMatrix(n) {
        forall a | 0 <= a < n
          ensures Sum(ZeroMatrix(n)[a]) == 0.0
        {
          SumZeros(n);
        }
        MatrixSumOfZeroRows(ZeroMatrix(n));
      } else {
        TotalSumZero(n, elements);
      }
    }

    /** The inputs read from the nodes depend only on the fields other than u. */
    twostate lemma InputsUnchanged()
      requires forall d :: 0 <= d < |nodes| ==>
                 && nodes[d].force == old(nodes[d].force) && nodes[d].fixed == old(nodes[d].fixed)
                 && nodes[d].prescribed == old(nodes[d].prescribed) && nodes[d].uPrescribed == old(nodes[d].uPrescribed)
      ensures LoadVector() == old(LoadVector()) && FixedMask() == old(FixedMask())
      ensures KnownDisplacements() == old(KnownDisplacements())
    {
    }

    /** Write the solved displacements into the nodes, then each element's axial force under them into the element. */
    method WriteBack(u: Vector)
      requires |u| == |nodes| && Numbered(nodes) && AllInRange(elements, |u|)
      modifies nodes`u, elements`axial
      ensures forall d :: 0 <= d < |nodes| ==> nodes[d].u == u[d]
      ensures forall e :: 0 <= e < |elements| ==> elements[e].axial == elements[e].AxialForce(u)
      ensures LoadVector() == old(LoadVector()) && FixedMask() == old(FixedMask())
      ensures KnownDisplacements() == old(KnownDisplacements())
    {
      for d := 0 to |nodes|
        invariant forall d' :: 0 <= d' < d ==> nodes[d'].u == u[d']
      {
        nodes[d].u := u[d];
      }
      for e := 0 to |elements|
        invariant forall d :: 0 <= d < |nodes| ==> nodes[d].u == u[d]
        invariant forall e' :: 0 <= e' < e ==> elements[e'].axial == elements[e'].AxialForce(u)
      {
        elements[e].axial := elements[e].AxialForce(u);
      }
      InputsUnchanged();
    }

    /**
     * Assemble when K still sums to zero, solve the partitioned system and,
     * on success, write the displacements and the axial forces back. A
     * singular reduced system is reported before anything is written.
     */
    method Solve() returns (r: Result<Solution>)
      requires Valid()
      modifies this, nodes`u, elements`axial
      ensures Valid()
      ensures Snapshot(K) == GlobalStiffness(n, elements)
      ensures F == old(LoadVector()) && fixed == old(FixedMask()) && uKnown == old(KnownDisplacements())
      ensures r == Equilibrium(GlobalStiffness(n, elements), F, fixed, uKnown)
      ensures r.Success? ==> forall d :: 0 <= d < n ==> nodes[d].u == r.value.u[d]
      ensures r.Success? ==> forall e :: 0 <= e < |elements| ==> elements[e].axial == elements[e].AxialForce(r.value.u)
      ensures r.Failure? ==> forall d :: 0 <= d < n ==> nodes[d].u == old(nodes[d].u)
      ensures r.Failure? ==> forall e :: 0 <= e < |elements| ==> elements[e].axial == old(elements[e].axial)
      ensures LoadVector() == old(LoadVector()) && FixedMask() == old(FixedMask())
      ensures KnownDisplacements() == old(KnownDisplacements())
    {
      ghost var loads, mask, known := LoadVector(), FixedMask(), KnownDisplacements();
      GuardAlwaysHolds();
      if MatrixSum(Snapshot(K)) == 0.0 {
        var _ := Assemble();
      }
      assert Valid() && Snapshot(K) == GlobalStiffness(n, elements);
      assert F == loads && fixed == mask && uKnown == known;
      r := Equilibrium(Snapshot(K), F, fixed, uKnown);
      if r.Success? {
        ghost var S := Snapshot(K);
        WriteBack(r.value.u);
        assert Snapshot(K) == S;
      }
    }
  }
}
