# 1D spring-element solver: a verified model of its engine

This project models the back end of a solver for chains and networks of
two-node axial springs. Each node has one degree of freedom (DOF), with index
`id - 1`. It carries an applied force and may have a known displacement:
either zero (a support) or a prescribed value. The solver:

- assembles the global stiffness matrix by scatter-adding every element's
  block `[[k, -k], [-k, k]]`;
- copies the loads and the boundary conditions from the nodes;
- splits the DOFs into free and fixed ones;
- solves the reduced system `Kff uf = Ff - Kfc uc`;
- puts the full displacement vector back together and computes the reactions
  `R = K u - F`;
- writes `u` into the nodes and the axial force `k (u[j] - u[i])` into the
  elements.

All quantities are Dafny `real`s, so "approximately zero" in floating point
becomes exactly zero in the model.

Modules, one file each:

- `LinearAlgebra` (`linear_algebra.dfy`) holds vectors and matrices as
  sequences, together with `Sum`, `Dot`, `MatVec` and `MatrixSum` (the
  counterpart of numpy's `K.sum()`) and the lemmas about them.
- `Indexing` (`indexing.dfy`) models three numpy operations:
  - `np.where` over a boolean mask as `Where`;
  - fancy reads `v[idx]` and `A[np.ix_(rows, cols)]` as `Gather` and
    `Submatrix`;
  - fancy writes `u[idx] = vals` as `Scatter`.
- `GaussElim` (`gauss.dfy`) does exact Gaussian elimination. It stands in for
  the dense solve `np.linalg.solve`.
  - It is proved sound: a returned `x` satisfies `A x = b`.
  - It is proved complete: it reports `Singular` exactly when `A` has a
    non-zero null vector.
  - Its solution is proved unique.
- `FeaModel` (`fea_model.dfy`) holds the `Node` and `SpringElement` classes.
  - The element's pure queries are functions: `Ke`, `Connectivity`,
    `Elongation`, `AxialForce` and `NodalActions`.
  - Checked construction is `Create`.
  - The in-place scatter-add is the method `AddToGlobal` on an
    `array2<real>`.
- `Assembly` (`assembly.dfy`) defines the assembled matrix `GlobalStiffness`
  as a function of the element list and proves its properties: symmetry,
  zero row and column sums, `K u` as the sum of the elements' nodal actions,
  and positive semidefiniteness when every stiffness is positive.
- `PartitionedSolve` (`partitioned_solve.dfy`) holds `Equilibrium`, the
  partitioned solve as a function of the global arrays, and the lemmas about
  what it returns.
- `Engine` (`engine.dfy`) is the `SpringFEASolver` class. Its state is the
  array `K` and the fields `F`, `fixed` and `uKnown`.
  - `Assemble` and `Solve` are methods proved against `GlobalStiffness` and
    `Equilibrium`.
  - The loops that write results back into the node and element objects are
    in `WriteBack`.
- `Scenarios` (`scenarios.dfy`) works through three concrete systems, the
  first two from the element objects through assembly to the result:
  - one spring pulled at its free end;
  - a two-spring chain with a prescribed end displacement;
  - a structure with an unconnected free node, which is singular.

`solve` tests `K_full.sum() == 0.0` and assembles only when it holds. The
test is meant to detect a matrix that has not been assembled yet. But every
assembled spring matrix also sums to exactly zero
(`Assembly.TotalSumZero`). So in exact arithmetic the test passes on every
call and `solve` always re-assembles (`Engine.SpringFEASolver.GuardAlwaysHolds`).
Re-assembling gives the same `K` and re-reads the node inputs, so nothing is
observably wrong. The model keeps the test exactly as written.

## Model

| member | source | states |
|---|---|---|
| FeaModel.Node.constructor | fea_core.py:12-19 | a new node has the given id, no load, no constraint, no prescribed value and zero displacement; its DOF is id - 1 |
| FeaModel.SpringElement.Create | fea_core.py:23-31 | construction fails with IdenticalNodes when both ends have the same id, otherwise with NonPositiveStiffness when k <= 0, and fails in no other case; on success the element stores i, j and k and axial is 0 |
| FeaModel.SpringElement.Ke | fea_core.py:33-35 | the element matrix is 2 x 2 and symmetric, each row sums to zero, and its diagonal is positive for a valid element |
| FeaModel.SpringElement.Connectivity | fea_core.py:37-38 | the global DOFs are i.id - 1 and j.id - 1, which differ for a valid element |
| FeaModel.SpringElement.AddToGlobal | fea_core.py:40-46 | exactly four entries change: k is added at (ii, ii) and (jj, jj), -k at (ii, jj) and (jj, ii), and every entry outside those rows or columns is unchanged |
| FeaModel.SpringElement.AxialForce | fea_core.py:49-54 | for a valid element the axial force is positive exactly under elongation (tension) and negative exactly under shortening |
| FeaModel.SpringElement.NodalActions | fea_core.py:56-59 | the two end forces are equal and opposite, and the one at node j is the axial force |
| Assembly.EntrySymmetric | fea_core.py:40-46 | scatter-adding the elements contributes equally to entries (a, b) and (b, a) |
| Assembly.GlobalStiffnessSymmetric | fea_core.py:73-78 | the assembled matrix is symmetric |
| Assembly.RowSumsZero | fea_core.py:73-78 | every row of the assembled matrix sums to zero |
| Assembly.ColumnSumsZero | fea_core.py:73-78 | every column of the assembled matrix sums to zero |
| Assembly.TotalSumZero | fea_core.py:73-78 | all entries of the assembled matrix add up to zero |
| Assembly.StiffnessTimes | fea_core.py:40-59 | K u equals, DOF by DOF, the sum over the elements of their nodal actions under u |
| Assembly.ResultantBalance | fea_core.py:56-59 | the nodal actions of all elements together add up to zero |
| Assembly.InternalForcesBalance | fea_core.py:73-78 | for every displacement vector u, the entries of K u add up to zero |
| Assembly.StiffnessPositiveSemidefinite | fea_core.py:73-78 | when every stiffness is positive, u . K u >= 0 for every u |
| Indexing.Where | fea_core.py:87-88 | the index list is ascending and in range, lists only positions holding the value, and lists every such position |
| Indexing.WhereMembership | fea_core.py:87-88 | each DOF is a fixed index exactly when it is fixed, and a free index exactly when it is not |
| Indexing.WhereCount | fea_core.py:87-88 | the free and fixed index lists together have one entry per DOF |
| Indexing.WhereNone | fea_core.py:87-88 | a mask holding no position with the value gives an empty index list |
| Indexing.GatherScatter | fea_core.py:112-114 | reading back the written indices returns the written values |
| Indexing.GatherScatterElsewhere | fea_core.py:112-114 | writing some indices leaves every other index unchanged |
| Indexing.DotPartition | fea_core.py:106-107 | a row times u splits into its free part plus its fixed part |
| PartitionedSolve.Partition | fea_core.py:87-88 | the free and fixed index lists are disjoint and together cover every DOF, each according to the mask |
| PartitionedSolve.ComposeParts | fea_core.py:89-94 | the composed displacement has the solved values at the free DOFs and the known values at the fixed DOFs |
| PartitionedSolve.AllFixedKeepsKnown | fea_core.py:92-100 | with every DOF fixed, the solve succeeds, u is exactly the known displacements, and each reaction is that row of K times them minus the load |
| PartitionedSolve.KnownDisplacementsKept | fea_core.py:90-94 | every fixed DOF of the returned u has its known displacement, both when every DOF is fixed and in the general case |
| PartitionedSolve.FreeRowBalanced | fea_core.py:102-112 | at each free DOF, the returned u satisfies its row of K u = F |
| PartitionedSolve.FreeReactionsVanish | fea_core.py:102-115 | the reaction is zero at every free DOF |
| PartitionedSolve.FailsIffSingular | fea_core.py:108-111 | the solve fails exactly when there are free DOFs and the free block Kff has a non-zero null vector |
| PartitionedSolve.SolutionUnique | fea_core.py:102-114 | any vector with the known values at the fixed DOFs and equilibrium at the free ones is the returned u |
| PartitionedSolve.ReactionsBalanceLoads | fea_core.py:115 | with an assembled stiffness matrix, sum(R) + sum(F) == 0 |
| PartitionedSolve.FixedLoadsIgnored | fea_core.py:102-115 | changing only the loads at fixed DOFs changes neither whether the solve succeeds nor u (so no element force), and shifts each reaction by exactly the change in its load |
| GaussElim.SolveSound | fea_core.py:109 | a returned solution x satisfies A x = b |
| GaussElim.SolveSingularIff | fea_core.py:108-111 | elimination reports Singular exactly when A has a non-zero null vector |
| GaussElim.SolveUnique | fea_core.py:109 | every y with A y = b is the returned solution |
| GaussElim.NullVectorIsNull | fea_core.py:108-111 | when elimination runs out of pivots, it exhibits a non-zero vector that A maps to zero |
| Engine.SpringFEASolver.constructor | fea_core.py:64-71 | the solver keeps the node and element lists, has one DOF per node, and starts with a zero K, zero loads, nothing fixed and zero known displacements |
| Engine.SpringFEASolver.StiffnessMatrix | fea_core.py:74-77 | the loop yields a fresh n x n array holding GlobalStiffness of the elements |
| Engine.SpringFEASolver.Assemble | fea_core.py:73-82 | K becomes the assembled matrix; F, fixed and uKnown become each node's force, fixed flag, and prescribed value if prescribed (0 otherwise); the array returned is K |
| Engine.SpringFEASolver.GuardAlwaysHolds | fea_core.py:85-86 | in every reachable state K sums to zero, so solve always assembles |
| Engine.SpringFEASolver.WriteBack | fea_core.py:116-119 | every node's u is the solved value, every element's axial force is its AxialForce under u, and the node inputs are untouched |
| Engine.SpringFEASolver.Solve | fea_core.py:84-120 | the result is Equilibrium of the freshly assembled K and the node inputs; on success the nodes and elements hold u and the axial forces, on failure none of them changes; the node inputs are untouched, so a second solve gives the same result |
| Engine.SpringFEASolver.ElementForces | fea_core.py:122-123 | the list has one entry per element, in element order, each that element's axial force |
| Scenarios.SingleSpringStiffness | fea_core.py:73-78 | one spring between nodes 1 and 2 assembles to [[k, -k], [-k, k]] |
| Scenarios.SingleSpring | fea_core.py:84-120 | node 1 supported and load P at node 2 give u = [0, P/k], R = [-P, 0], free [1] and fixed [0] |
| Scenarios.SingleSpringAxialForce | fea_core.py:53-54 | that spring carries tension P |
| Scenarios.SingleSpringAssembled | fea_core.py:73-120 | for a spring from node 1 to node 2, assembling it and solving with node 1 supported and load P at node 2 gives u = [0, P/k] and R = [-P, 0], and the spring carries tension P |
| Scenarios.ChainStiffness | fea_core.py:73-78 | springs 1-2 and 2-3 assemble to the tridiagonal matrix |
| Scenarios.Chain | fea_core.py:84-120 | with node 1 held at 0 and node 3 prescribed to w, the middle node moves to w/2 and the reactions are -k w/2 and k w/2 |
| Scenarios.ChainAxialForces | fea_core.py:53-54 | both springs of the chain carry tension k w/2 |
| Scenarios.ChainAssembled | fea_core.py:73-120 | for springs 1-2 and 2-3, assembling them and solving with node 1 held at 0, node 3 moved to w and no loads gives u = [0, w/2, w], reactions -k w/2, 0 and k w/2, and both springs carry tension k w/2 |
| Scenarios.DisconnectedNode | fea_core.py:108-111 | a free node that no element touches makes the solve fail with StructuralSingularity |

## Left out

- The graphical front end (`gui.py`) is not part of this model. This covers
  its widgets, drawing, debouncing, message boxes and CSV export.
- The front end checks contiguous node ids 1..n and element ends within range
  before building the model. Both become preconditions of the solver's
  constructor and parts of its invariant `Valid`: `Numbered(nodes)` (the node
  at list position d has id d + 1, so its DOF is d) and
  `AllInRange(elements, n)`. numpy's wrap-around for negative indices and its
  `IndexError` for out-of-range DOFs are therefore not modelled.
- Since every node's id is fixed by its position, the node list holds no
  object twice. Aliased nodes, for which the write-back loop would overwrite
  earlier values, are therefore not modelled.
- `prescribed ⇒ fixed` is not required, because the engine reads `u_known`
  only at fixed DOFs. A prescribed node that is not fixed is treated as free,
  as in the source.
- Floating-point rounding and LAPACK are not modelled. The dense solve is
  exact Gaussian elimination over the reals, with the first non-zero leading
  entry as pivot. "Singular" therefore means exactly singular, not
  numerically singular.
- `int(...)` and `float(...)` conversions are not modelled. Node ids are
  integers and stiffnesses are reals from the start.
- Exceptions and their message text are not modelled. A construction error
  is `Failure(InvalidElement(...))`. A singular reduced matrix is
  `Failure(StructuralSingularity)`, returned before anything is written back.
- `Engine.SpringFEASolver.Solve` returns one `Solution` value holding
  `(u, R, free_idx, fixed_idx)`, not a Python tuple of numpy arrays.
- `Elongation` has no contract of its own. It is specified through
  `AxialForce` and `NodalActions`.
