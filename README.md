# Microprocessor heat dissipation: a verified model of the solver core

This project models the numerical core of a Python program. The program
computes the steady temperature of a microprocessor and the ceramic case on
top of it. Heat comes from a uniform volumetric source. It leaves through the
surface, where a convection law fixes the outward heat flux: a Neumann
boundary condition. All of the following is in Dafny, with exact `real`
arithmetic:

- The Jacobi relaxation of the Poisson equation on a W×H grid (`jacobi.dfy`).
  - One sweep uses the 5-point stencil, with ghost-point reflection on the
    four edges and at the corners.
  - The solve loop starts from a uniform guess. It can refresh the boundary
    gradients from each new grid. It caps the number of sweeps and stops on a
    relative change of the grid norm.
  - The boundary gradients can be derived from a dissipation law.
  - The average surface temperature is the mean of the border cells.
- The stiffness matrix of the 5-point Laplacian for the direct solver, and
  the solver object that validates and scales the source vector
  (`poisson_solver.dfy`).
- The object geometry: rectangles with a material, their bounding box, and
  the fixed scenarios of a microprocessor system (`system.dfy`).
- Small helpers:
  - the Euclidean norm as a sum-of-squares loop (`utils.dfy`);
  - Richardson extrapolation (`errors.dfy`);
  - the forced-convection dissipation law (`heat_equations.dfy`).

`wrappers.dfy` holds the `Option` and `Result` types. `Option` stands for a
float division that produces inf or nan. `Result` stands for a constructor
that raises `RuntimeError`.

The imperative code stays imperative:

- `jacobi_poisson_iteration`, `jacobi_poisson_solve`, `average_surf_temp`,
  `assemble_stiffness_matrix`, `euclidean_norm` and `determine_extremes` are
  methods with loops. They work over `array2<real>` grids where the source
  works over numpy arrays.
- Each of those methods is proved equal to a specification function: `Sweep`,
  `Solve`, `BorderSamples`/`Mean`, `StiffnessEntry`, `SumSquares`, or the
  bounding-box predicates. The properties are then proved about those
  functions.
- `PoissonSolver` is a class with the fields `__init__` assigns. Its raising
  constructor is the static factory `Create`, which returns a `Result`.
- `Object` and `MicroprocessorSystem` only have their fields set once, at
  construction, and no method in the core changes them. They are therefore
  datatypes, built by the functions `NewObject` and `NewMicroprocessorSystem`.

Grid convention: `g[i][j]` is the temperature at x = i·h, y = j·h, with i over
the width and j over the height. This is the source's `(width, height)`
array layout. The left and right gradient arrays are indexed by j, the bottom
and top ones by i.

There are three places where the model takes a position of its own:

- The solve loop's stopping test divides by the norm of the previous grid. A
  previous grid of norm 0 makes the float division give inf or nan, and
  neither is below the stopping condition. So such a sweep never counts as
  converged, even when the numerator is 0 as well. `FractionalChange` returns
  `None` there, and `Converged` is false.
- `natural_bcs` calls `natural_dissipation(temperatures, ambient)`, but
  `natural_dissipation` takes one argument (src/jacobi.py:53-56 against
  src/heat_equations.py:1), so as written the call raises `TypeError`.
  `NaturalBcs` does not model that failure. It models what the call is
  evidently meant to compute: a one-argument dissipation law applied to each
  border temperature, divided by the conductivity 150 W/mK, and negated on the
  right and top sides. The law is a parameter.
- The constructor of a microprocessor system leaves `objects` unset for
  scenario 3 and for any scenario below 1. The model makes it `None`.

## Model

| member | source | states |
|---|---|---|
| Utils.EuclideanNorm | src/utils.py:4-10 | the accumulated total is the sum of the squares of all elements; the result is its non-negative square root, so the result squared is that sum |
| Utils.SumSquaresPrefixMonotone | src/utils.py:6-8 | the running total never decreases as the loop advances, and it starts at 0 |
| Utils.SumSquaresAppend | src/utils.py:7-8 | the sum of squares of a concatenation is the sum of the two parts' sums |
| Utils.SumSquaresPermutation | src/utils.py:7-8 | reordering the elements leaves the sum of squares unchanged |
| Utils.NormPermutation | src/utils.py:7-10 | reordering the elements leaves the norm unchanged |
| Utils.NormSingleton | src/utils.py:10 | the norm of a single element x is abs(x) |
| Utils.NormEmpty | src/utils.py:6-10 | the norm of the empty vector is 0 |
| HeatEquations.ForcedDissipation | src/heat_equations.py:9-14 | the flux is positive iff the surface is above 20 °C, negative iff below, and 0 iff at 20 °C |
| HeatEquations.ForcedDissipationIsConvectionLaw | src/heat_equations.py:9-14 | forced_dissipation is the forced-convection law (11.4 + 5.7 v)(T − Ta) at v = 20 m/s and Ta = 20 °C |
| HeatEquations.ForcedDissipationAtAmbient | src/heat_equations.py:14 | no flux at the ambient temperature |
| HeatEquations.ForcedDissipationIncreasing | src/heat_equations.py:14 | strictly increasing, at 125.4 W/m² per degree |
| Errors.Extrapolate | src/errors.py:27-33 | the estimate is halfVal + (halfVal − val)/3: equal inputs give that value, and otherwise it lies beyond halfVal, on the side away from val |
| Errors.ExtrapolateShift | src/errors.py:33 | adding c to both inputs adds c to the estimate |
| Errors.ExtrapolateCancelsSecondOrderError | src/errors.py:27-33 | with errors c·h² at step h and c·(h/2)² at step h/2, the estimate is exact |
| Jacobi.Sweep | src/jacobi.py:77-111 | one sweep returns a grid of the same shape, with each cell computed from the old grid by the stencil |
| Jacobi.StencilCell | src/jacobi.py:83-109 | the term-by-term accumulation of one cell (−h²s, the horizontal term, the vertical term, then /4) equals the stencil value |
| Jacobi.SweepColumn | src/jacobi.py:82-109 | after the inner loop for column i, every cell of that column holds its stencil value from the old grid and every other column is as it was |
| Jacobi.JacobiPoissonIteration | src/jacobi.py:61-111 | a fresh array of the old one's dimensions, filled with the sweep of the old grid; the old array is not modified |
| Jacobi.SweepInterior | src/jacobi.py:83-109 | interior cells are (left + right + below + above − h²s)/4 |
| Jacobi.SweepLeftRightEdges | src/jacobi.py:83-109 | on the left edge the horizontal term is 2·old[1][j] − 2h·left[j]; on the right edge it is 2·old[W−2][j] + 2h·right[j] |
| Jacobi.SweepBottomTopEdges | src/jacobi.py:83-109 | on the bottom edge the vertical term is 2·old[i][1] − 2h·bottom[i]; on the top edge it is 2·old[i][H−2] + 2h·top[i] |
| Jacobi.SweepCorners | src/jacobi.py:86-103 | each corner combines one horizontal and one vertical reflection term |
| Jacobi.SweepReadsOnlyNeighbours | src/jacobi.py:81-109 | a new cell depends only on the old values of its four neighbours; its own old value is never read |
| Jacobi.Uniform | src/jacobi.py:134 | the initial guess: every cell of a (width, height) grid equals tGuess |
| Jacobi.UniformFixedPoint | src/jacobi.py:83-109 | a uniform grid with source 0 and all gradients 0 is unchanged by a sweep |
| Jacobi.LinearNeighbours | src/jacobi.py:86-107 | on a linear field, the interior neighbour sums and the edge reflection terms all equal twice the cell's value |
| Jacobi.LinearFixedPoint | src/jacobi.py:86-109 | a linear field a·x + b·y + c with source 0, left = right = a and bottom = top = b is unchanged by a sweep |
| Jacobi.FractionalChange | src/jacobi.py:6-14 | undefined (inf or nan) exactly when the previous norm is 0; otherwise a non-negative value that, times the previous norm, is abs(norm(current) − norm(previous)) |
| Jacobi.FractionalChangeSelf | src/jacobi.py:11-14 | a grid compared with itself changes by 0, provided its norm is not 0 |
| Jacobi.JacobiPoissonSolve | src/jacobi.py:114-168 | the returned array has the (width, height) dimensions and holds the result of the solve loop's specification from the uniform guess |
| Jacobi.SolveLoopStep | src/jacobi.py:138-166 | one pass sweeps once; it returns that sweep when the incremented counter passes the cap or the new grid passes the test, and otherwise continues from the sweep with the refreshed gradients |
| Jacobi.SolveLoopIsIterate | src/jacobi.py:138-166 | the loop runs k sweeps, 1 ≤ k ≤ max_iterations + 1 − counter, refreshing the gradients after each; it stops before the cap only right after a sweep that passed the test, and no earlier sweep passed it |
| Jacobi.SolveSweepCount | src/jacobi.py:133-166 | the solution is the uniform guess after k sweeps, for some 1 ≤ k ≤ max_iterations + 1 |
| Jacobi.SolveMaxIterationsZero | src/jacobi.py:158-161 | with max_iterations = 0 exactly one sweep runs, so the guess itself is not returned |
| Jacobi.SolveLoopFixedPoint | src/jacobi.py:138-166 | a grid that the sweep leaves unchanged, under both the current and the refreshed gradients, is what the loop returns |
| Jacobi.SolveInsulatedUniform | src/jacobi.py:133-166 | with no source and insulated boundaries (refreshed ones included), the solve returns the uniform guess |
| Jacobi.NaturalBcs | src/jacobi.py:46-58 | exactly H gradient values on the left and right sides and W on the bottom and top, one per border cell |
| Jacobi.NaturalBcsOppositeSides | src/jacobi.py:53-56 | on a uniform border, opposite sides get opposite gradients, because the right and top sides are negated |
| Jacobi.SolveAmbientSteady | src/jacobi.py:46-58 | under a dissipation law with no flux at ambient, a solve that starts at the ambient temperature from insulated initial gradients (all zero), has no source, and refreshes its gradients with natural_bcs returns the ambient grid |
| Jacobi.BorderSamples | src/jacobi.py:25-40 | exactly 2·H + 2·W samples are collected, with the corners counted twice |
| Jacobi.AverageSurfTemp | src/jacobi.py:17-43 | the four loops collect the left column, the right column, the bottom row and the top row in that order, and the result is their mean |
| Jacobi.MeanBounds | src/jacobi.py:42 | the mean lies between any lower and upper bound of the samples |
| Jacobi.AverageWithinBorderBounds | src/jacobi.py:17-43 | the average surface temperature lies between any bounds of the border cells |
| Jacobi.AverageOfUniform | src/jacobi.py:17-43 | on a uniform grid the average surface temperature is that temperature |
| Poisson.AssembleStiffnessMatrix | src/poisson_solver.py:5-33 | the matrix is n×n with n = height·width, and each entry equals the characterisation by the four index guards |
| Poisson.StiffnessDiagonal | src/poisson_solver.py:15 | every diagonal entry is −4 |
| Poisson.StiffnessLeftNeighbour | src/poisson_solver.py:17-27 | entry (i, i−1) is 1 iff i mod height ≠ 0 (for height 1 the neighbour above lands there and it is 1) |
| Poisson.StiffnessRightNeighbour | src/poisson_solver.py:21-31 | entry (i, i+1) is 1 iff (i+1) mod height ≠ 0 (for height 1 it is always 1) |
| Poisson.StiffnessVerticalNeighbours | src/poisson_solver.py:25-31 | entries (i, i−height) and (i, i+height) are 1 wherever those columns exist |
| Poisson.StiffnessOtherEntries | src/poisson_solver.py:12-31 | every entry away from the diagonal and the four neighbour positions is 0 |
| Poisson.StiffnessValues | src/poisson_solver.py:12-31 | every entry is −4, 0 or 1, and the −4 entries are exactly the diagonal |
| Poisson.StiffnessSymmetric | src/poisson_solver.py:14-31 | the matrix is symmetric |
| Poisson.NeighbourCount | src/poisson_solver.py:17-31 | each unknown has between 0 and 4 neighbours |
| Poisson.StiffnessEntryAsSum | src/poisson_solver.py:14-31 | each entry is −4 on the diagonal plus 1 for each neighbour guard that holds at that column; no neighbour position is counted twice |
| Poisson.RowSumPrefix | src/poisson_solver.py:14-31 | the sum of the first k entries of a row counts the diagonal and each neighbour whose column is below k |
| Poisson.StiffnessRowSum | src/poisson_solver.py:14-31 | each row sums to −4 plus its number of neighbours, hence to at most 0 |
| Poisson.LoadVectorAdditive | src/poisson_solver.py:51 | the load of a sum of two source vectors is the sum of their loads, entry by entry |
| Poisson.LoadVectorHomogeneous | src/poisson_solver.py:51 | scaling the source vector by a factor scales every load entry by that factor |
| Poisson.LoadVectorStepSign | src/poisson_solver.py:51 | the load depends on the step only through its square, so a step and its negation give the same load |
| Poisson.PoissonSolver.constructor | src/poisson_solver.py:47-51 | height, width and step_size are stored unchanged, the stiffness matrix is assembled, and the load vector is the scaled source |
| Poisson.PoissonSolver.Create | src/poisson_solver.py:37-51 | fails exactly when len(source_terms) ≠ height·width; otherwise a new solver with those fields |
| System.NewObject | src/system.py:31-55 | xmax − xmin = width and ymax − ymin = height from the bottom-left corner; k, power and colour are stored unchanged; width ≥ 0 gives xmin ≤ xmax, and likewise for height |
| System.DetermineExtremes | src/system.py:8-27 | for a non-empty list, the result encloses every object, and each extreme is attained by some object |
| System.BoundingBoxUnique | src/system.py:8-27 | two boxes that both enclose the list and are attained on every side are equal, so the result is determined |
| System.BoundingBoxOrdered | src/system.py:10-25 | if the first object is well-formed, the box has xmin ≤ xmax and ymin ≤ ymax |
| System.BoundingBoxSingleton | src/system.py:10-27 | the box of a single object is its own rectangle |
| System.Processor | src/system.py:67 | the processor is 14 mm wide and 1 mm high |
| System.CeramicCase | src/system.py:73 | the ceramic case is 20 mm wide and 2 mm high and produces no heat |
| System.NewMicroprocessorSystem | src/system.py:59-79 | fails exactly when the scenario is above 3; temps is [[]]; scenario 1 gives exactly [processor] and scenario 2 exactly [processor, ceramic case]; any other scenario up to 3 leaves objects unset |
| System.ScenarioObjectsNonEmpty | src/system.py:65-79 | whenever a scenario sets its objects, the list is non-empty, as determine_extremes requires |
| System.Scenario1Extremes | src/system.py:65-68 | the bounding box of the objects the scenario-1 constructor builds is (0, 0.014, 0, 0.001) |
| System.Scenario2Extremes | src/system.py:70-74 | the bounding box of the objects the scenario-2 constructor builds is (−0.003, 0.017, 0, 0.003) |

## Left out

- Floating point: temperatures, gradients and coordinates are exact reals, so rounding is not modelled.
- Square root: the square root inside `np.linalg.norm` and `** 0.5` is a parameter `sqrt`. `Utils.EuclideanNorm` requires it to be the non-negative square root; the convergence test works for any function.
- Convergence of the Jacobi iteration is not proved. The model states what the loop returns, not how close that is to the solution of the Poisson equation.
- `natural_dissipation` is not modelled: (T − 20) to the power 4/3 has no real value below 20 °C. `NaturalBcs` takes the dissipation law as a parameter instead.
- `mean_value` in src/errors.py is not modelled: it depends on the external `uncertainties` package.
- `MicroprocessorSystem.create_mesh` and `MicroprocessorSystem.plot` are not modelled. The first sizes the mesh with `np.arange` over float steps, so its size depends on rounding; the second draws with matplotlib.
- The print statements in `jacobi_poisson_solve` and in the `PoissonSolver` constructor are output only, and are not modelled.
- `deepcopy` of the old solution: the model allocates a fresh array on each sweep, so the old grid is never aliased.
- The driver scripts and test scripts of the repository, and the members they call that the core does not define, are not modelled.
- Jacobi.JacobiPoissonIteration: requires W ≥ 2 and H ≥ 2 and gradient arrays at least as long as the sides. Smaller grids make the source index out of range.
- Jacobi.JacobiPoissonSolve: requires that `bc_update_func`, when given, accepts every grid of the solve's shape and returns gradient arrays covering it. The Python function is untyped, so the model has to state this.
- Jacobi.AverageSurfTemp: requires a non-empty grid with non-empty columns. The source indexes `temperatures[0]` and `temperatures[i][height - 1]`.
- Poisson.StiffnessLeftNeighbour: the iff with i mod height ≠ 0 holds for height ≥ 2. With height 1 the entry is 1 from the vertical guard, and the contract states that case.
- Scenario 3's heat sink does not exist in the source, and that scenario sets no objects.
- Jacobi.NaturalBcs: models a one-argument dissipation law. It does not model the `TypeError` that the code as written raises, where it passes two arguments to the one-argument `natural_dissipation`.
- Jacobi.JacobiPoissonSolve: `maxIterations` is a `nat`. The source accepts any integer, and a negative cap stops after one sweep, just as 0 does. Every call in the repository passes a positive cap.
- System.NewObject: `colour` is a required parameter. The source defaults it to "grey", and every call in the repository passes a colour explicitly.
- Concurrency: the core has none.
