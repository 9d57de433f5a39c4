/**
 * The entities of the 1D spring model: single-DOF nodes and two-node axial
 * spring elements, with the outcomes the engine can report.
 */
module FeaModel {
  import opened LinearAlgebra

  /** Why an element could not be constructed. */
  datatype ElementDefect = IdenticalNodes | NonPositiveStiffness

  datatype FeaError =
    | InvalidElement(defect: ElementDefect)
    | StructuralSingularity   // the reduced free-DOF system has no unique solution

  datatype Result<T> = Success(value: T) | Failure(error: FeaError)

  /** A node with one degree of freedom; its DOF index is id - 1. */
  class Node {
    const id: int
    const dof: int := id - 1
    var force: real          // applied external load
    var fixed: bool          // displacement is known (zero or prescribed)
    var prescribed: bool     // the known displacement is uPrescribed
    var uPrescribed: real
    var u: real              // solved displacement

    constructor (nodeId: int)
      ensures id == nodeId
      ensures force == 0.0 && !fixed && !prescribed && uPrescribed == 0.0 && u == 0.0
    {
      id := nodeId;
      force, fixed, prescribed, uPrescribed, u := 0.0, false, false, 0.0, 0.0;
    }
  }

  /** A linear axial spring of stiffness k between nodes i and j. */
  class SpringElement {
    const i: Node
    const j: Node
    const k: real
    var axial: real          // internal axial force, positive in tension

    /** What construction guarantees: distinct end nodes and positive stiffness. */
    predicate Valid() {
      i.id != j.id && k > 0.0
    }

    /** Both end DOFs index a system of n DOFs. */
    predicate InRange(n: nat) {
      0 <= i.dof < n && 0 <= j.dof < n
    }

    constructor (ni: Node, nj: Node, stiffness: real)
      requires ni.id != nj.id && stiffness > 0.0
      ensures i == ni && j == nj && k == stiffness && axial == 0.0
      ensures Valid()
    {
      i, j, k := ni, nj, stiffness;
      axial := 0.0;
    }

    /** Construction with its input checks: a self-loop, then a non-positive stiffness, is refused. */
    static method Create(ni: Node, nj: Node, stiffness: real) returns (r: Result<SpringElement>)
      ensures r.Failure? <==> ni.id == nj.id || stiffness <= 0.0
      ensures ni.id == nj.id ==> r == Failure(InvalidElement(IdenticalNodes))
      ensures ni.id != nj.id && stiffness <= 0.0 ==> r == Failure(InvalidElement(NonPositiveStiffness))
      ensures r.Success? ==> fresh(r.value) && r.value.Valid() && r.value.axial == 0.0
      ensures r.Success? ==> r.value.i == ni && r.value.j == nj && r.value.k == stiffness
    {
      if ni.id == nj.id {
        return Failure(InvalidElement(IdenticalNodes));
      }
      if stiffness <= 0.0 {
        return Failure(InvalidElement(NonPositiveStiffness));
      }
      var e := new SpringElement(ni, nj, stiffness);
      return Success(e);
    }

    /** The element stiffness matrix [[k, -k], [-k, k]], ordered (i, j). */
    function Ke(): (m: Matrix)
      ensures IsSquare(m, 2)
      ensures m[0][1] == m[1][0]
      ensures Sum(m[0]) == 0.0 && Sum(m[1]) == 0.0
      ensures Valid() ==> m[0][0] > 0.0 && m[1][1] > 0.0
    {
      var m := [[k, -k], [-k, k]];
      assert m[0][..1] == [k] && [k][..0] == [] && m[1][..1] == [-k] && [-k][..0] == [];
      assert Sum([k]) == k && Sum([-k]) == -k;
      m
    }

    /** The global DOF indices of the two ends. */
    function Connectivity(): (c: (int, int))
      ensures c.0 == i.id - 1 && c.1 == j.id - 1
      ensures Valid() ==> c.0 != c.1
    {
      (i.dof, j.dof)
    }

    /** What scatter-adding Ke() contributes to entry (a, b) of a global matrix. */
    function Contribution(a: int, b: int): real {
      var (ii, jj) := Connectivity();
      (if a == ii && b == ii then Ke()[0][0] else 0.0)
      + (if a == ii && b == jj then Ke()[0][1] else 0.0)
      + (if a == jj && b == ii then Ke()[1][0] else 0.0)
      + (if a == jj && b == jj then Ke()[1][1] else 0.0)
    }

    /** Scatter-add Ke() into K in place at rows and columns (i.dof, j.dof). */
    method AddToGlobal(K: array2<real>)
      requires InRange(K.Length0) && InRange(K.Length1)
      modifies K
      ensures forall a, b :: 0 <= a < K.Length0 && 0 <= b < K.Length1 ==>
                K[a, b] == old(K[a, b]) + Contribution(a, b)
      ensures Valid() ==>
                && K[i.dof, i.dof] == old(K[i.dof, i.dof]) + k
                && K[i.dof, j.dof] == old(K[i.dof, j.dof]) - k
                && K[j.dof, i.dof] == old(K[j.dof, i.dof]) - k
                && K[j.dof, j.dof] == old(K[j.dof, j.dof]) + k
      ensures forall a, b | 0 <= a < K.Length0 && 0 <= b < K.Length1 ::
                (a != i.dof && a != j.dof) || (b != i.dof && b != j.dof) ==> K[a, b] == old(K[a, b])
    {
      var (ii, jj) := Connectivity();
      var ke := Ke();
      K[ii, ii] := K[ii, ii] + ke[0][0];
      K[ii, jj] := K[ii, jj] + ke[0][1];
      K[jj, ii] := K[jj, ii] + ke[1][0];
      K[jj, jj] := K[jj, jj] + ke[1][1];
    }

    // Post-processing, given the full global displacement vector u.

    function Elongation(u: Vector): real
      requires InRange(|u|)
    {
      var (ii, jj) := Connectivity();
      u[jj] - u[ii]
    }

    /** k times the elongation: positive when stretched (tension), negative when compressed. */
    function AxialForce(u: Vector): (f: real)
      requires InRange(|u|)
      ensures Valid() ==> (f > 0.0 <==> Elongation(u) > 0.0) && (f < 0.0 <==> Elongation(u) < 0.0)
    {
      k * Elongation(u)
    }

    /** The forces the element exerts on nodes i and j: equal and opposite, the one on j being the axial force. */
    function NodalActions(u: Vector): (r: (real, real))
      requires InRange(|u|)
      ensures r.0 == -r.1
      ensures r.1 == AxialForce(u)
    {
      var (ii, jj) := Connectivity();
      (k * (u[ii] - u[jj]), k * (u[jj] - u[ii]))
    }
  }
}
