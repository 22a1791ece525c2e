/**
 * The direct-solve set-up (src/poisson_solver.py): the stiffness matrix of the
 * 5-point Laplacian on a height x width grid numbered row by row, before any
 * boundary condition is applied, and the solver object that holds it.
 */
module Poisson {
  import opened Wrappers

  /** Unknown r has a neighbour at r - 1 unless it starts a row (source guard i % height != 0). */
  predicate HasLeft(height: nat, r: nat)
    requires height > 0
  {
    r % height != 0
  }

  /** Unknown r has a neighbour at r + 1 unless it ends a row (source guard (i + 1) % height != 0). */
  predicate HasRight(height: nat, r: nat)
    requires height > 0
  {
    (r + 1) % height != 0
  }

  /** Unknown r has a neighbour at r - height unless it is in the first row. */
  predicate HasAbove(height: nat, r: nat)
  {
    r - height >= 0
  }

  /** Unknown r has a neighbour at r + height unless it is in the last row. */
  predicate HasBelow(height: nat, width: nat, r: nat)
  {
    r + height < height * width
  }

  /** Entry (r, c) of the matrix assemble_stiffness_matrix returns. */
  function StiffnessEntry(height: nat, width: nat, r: nat, c: nat): real
    requires r < height * width && c < height * width
  {
    if r == c then -4.0
    else if (c + 1 == r && HasLeft(height, r))
         || (c == r + 1 && HasRight(height, r))
         || (c + height == r && HasAbove(height, r))
         || (c == r + height && HasBelow(height, width, r))
    then 1.0
    else 0.0
  }

  lemma SizePositive(height: nat, width: nat, r: nat)
    requires r < height * width
    ensures height > 0 && width > 0
  {
  }

  /** The last unknown ends a row: n is a multiple of height. */
  lemma LastEndsRow(height: nat, width: nat)
    requires height > 0
    ensures (height * width) % height == 0
  {
    var n := height * width;
    var q, m := n / height, n % height;
    assert n == height * q + m && 0 <= m < height;
    assert height * (width - q) == m;
    MultipleBounds(height, width - q);
  }

  lemma MultipleBounds(height: nat, d: int)
    requires height > 0
    ensures d >= 1 ==> height * d >= height
    ensures d <= -1 ==> height * d <= 0 - height
  {
  }

  method AssembleStiffnessMatrix(height: nat, width: nat) returns (matrix: array2<real>)
    ensures matrix.Length0 == height * width && matrix.Length1 == height * width
    ensures forall r, c :: 0 <= r < height * width && 0 <= c < height * width ==>
      matrix[r, c] == StiffnessEntry(height, width, r, c)
  {
    var matrixSize := height * width;
    matrix := new real[matrixSize, matrixSize]((_, _) => 0.0);

    for i := 0 to matrixSize
      invariant forall r, c :: 0 <= r < i && 0 <= c < matrixSize ==>
        matrix[r, c] == StiffnessEntry(height, width, r, c)
      invariant forall r, c :: i <= r < matrixSize && 0 <= c < matrixSize ==> matrix[r, c] == 0.0
    {
      SizePositive(height, width, i);
      LastEndsRow(height, width);
      matrix[i, i] := -4.0;

      if i % height != 0 {
        // The unknown one to the left, unless i starts a row.
        matrix[i, i - 1] := 1.0;
      }

      if (i + 1) % height != 0 {
        // The unknown one to the right, unless i ends a row.
        matrix[i, i + 1] := 1.0;
      }

      if i - height >= 0 {
        // The unknown one row back, unless i is in the first row.
        matrix[i, i - height] := 1.0;
      }

      if i + height < matrixSize {
        // The unknown one row on, unless i is in the last row.
        matrix[i, i + height] := 1.0;
      }

      assert forall c :: 0 <= c < matrixSize ==> matrix[i, c] == StiffnessEntry(height, width, i, c);
    }
  }

  // ---------------------------------------------------------------------------
  // The entries of the stiffness matrix
  // ---------------------------------------------------------------------------

  lemma StiffnessDiagonal(height: nat, width: nat, r: nat)
    requires r < height * width
    ensures StiffnessEntry(height, width, r, r) == -4.0
  {
  }

  /**
   * Entry (r, r - 1) is 1 exactly when r does not start a row. With a single
   * row (height 1) that position is instead the neighbour above, which is 1.
   */
  lemma StiffnessLeftNeighbour(height: nat, width: nat, r: nat)
    requires 0 < r < height * width
    ensures StiffnessEntry(height, width, r, r - 1) == (if r % height != 0 || height == 1 then 1.0 else 0.0)
  {
  }

  /** Entry (r, r + 1) is 1 exactly when r does not end a row (or, with height 1, always). */
  lemma StiffnessRightNeighbour(height: nat, width: nat, r: nat)
    requires r + 1 < height * width
    ensures StiffnessEntry(height, width, r, r + 1) == (if (r + 1) % height != 0 || height == 1 then 1.0 else 0.0)
  {
  }

  /** The neighbours one row away are 1 wherever they exist. */
  lemma StiffnessVerticalNeighbours(height: nat, width: nat, r: nat)
    requires r < height * width
    ensures r >= height ==> StiffnessEntry(height, width, r, r - height) == 1.0
    ensures r + height < height * width ==> StiffnessEntry(height, width, r, r + height) == 1.0
  {
  }

  /** Every entry off the diagonal and the four neighbour positions is 0. */
  lemma StiffnessOtherEntries(height: nat, width: nat, r: nat, c: nat)
    requires r < height * width && c < height * width
    requires c != r && c + 1 != r && c != r + 1 && c + height != r && c != r + height
    ensures StiffnessEntry(height, width, r, c) == 0.0
  {
  }

  /** Every entry is -4, 0 or 1, and the -4 entries are exactly the diagonal. */
  lemma StiffnessValues(height: nat, width: nat, r: nat, c: nat)
    requires r < height * width && c < height * width
    ensures var e := StiffnessEntry(height, width, r, c); e == -4.0 || e == 0.0 || e == 1.0
    ensures StiffnessEntry(height, width, r, c) == -4.0 <==> r == c
  {
  }

  /** Each guard pairs with its mirror guard, so the matrix is symmetric. */
  lemma StiffnessSymmetric(height: nat, width: nat, r: nat, c: nat)
    requires r < height * width && c < height * width
    ensures StiffnessEntry(height, width, r, c) == StiffnessEntry(height, width, c, r)
  {
    SizePositive(height, width, r);
    if c + 1 == r {
      assert HasLeft(height, r) == HasRight(height, c);
    } else if r + 1 == c {
      assert HasLeft(height, c) == HasRight(height, r);
    }
  }

  // ---------------------------------------------------------------------------
  // Row sums
  // ---------------------------------------------------------------------------

  function Indicator(b: bool): real
  {
    if b then 1.0 else 0.0
  }

  /** How many of the four neighbour guards hold for unknown r. */
  function NeighbourCount(height: nat, width: nat, r: nat): (count: real)
    requires height > 0
    ensures 0.0 <= count <= 4.0
  {
    Indicator(HasLeft(height, r)) + Indicator(HasRight(height, r))
      + Indicator(HasAbove(height, r)) + Indicator(HasBelow(height, width, r))
  }

  /** The sum of the first k entries of row r. */
  function RowSum(height: nat, width: nat, r: nat, k: nat): real
    requires r < height * width && k <= height * width
  {
    if k == 0 then 0.0 else RowSum(height, width, r, k - 1) + StiffnessEntry(height, width, r, k - 1)
  }

  /**
   * How many of the positions r (weighted -4), r - 1, r + 1, r - height and
   * r + height lie below k, counting a neighbour only when its guard holds.
   */
  function BelowCount(left: bool, right: bool, above: bool, below: bool, r: int, height: int, k: int): real
  {
    -4.0 * Indicator(r < k)
      + Indicator(left && r - 1 < k) + Indicator(right && r + 1 < k)
      + Indicator(above && r - height < k) + Indicator(below && r + height < k)
  }

  /** As BelowCount, for the positions equal to c. */
  function AtCount(left: bool, right: bool, above: bool, below: bool, r: int, height: int, c: int): real
  {
    -4.0 * Indicator(r == c)
      + Indicator(left && r - 1 == c) + Indicator(right && r + 1 == c)
      + Indicator(above && r - height == c) + Indicator(below && r + height == c)
  }

  /** The row sum over k columns, as the sum over k - 1 columns plus the count of the new column. */
  lemma RowSumStep(height: nat, width: nat, r: nat, k: nat)
    requires r < height * width && 0 < k <= height * width
    requires height > 0
    requires StiffnessEntry(height, width, r, k - 1)
      == AtCount(HasLeft(height, r), HasRight(height, r), HasAbove(height, r), HasBelow(height, width, r), r, height, k - 1)
    ensures RowSum(height, width, r, k)
      == RowSum(height, width, r, k - 1)
       + AtCount(HasLeft(height, r), HasRight(height, r), HasAbove(height, r), HasBelow(height, width, r), r, height, k - 1)
  {
  }

  /** Moving the bound k up by one adds the positions equal to k - 1. */
  lemma CountStep(left: bool, right: bool, above: bool, below: bool, r: int, height: int, k: int)
    ensures BelowCount(left, right, above, below, r, height, k)
         == BelowCount(left, right, above, below, r, height, k - 1) + AtCount(left, right, above, below, r, height, k - 1)
  {
  }

  /**
   * Entry (r, c) as a sum over the diagonal and the four neighbour positions.
   * The positions are distinct when height >= 2; with height 1 the left and
   * right guards never hold, so no position is counted twice.
   */
  lemma StiffnessEntryAsSum(height: nat, width: nat, r: nat, c: nat)
    requires r < height * width && c < height * width
    ensures height > 0
    ensures StiffnessEntry(height, width, r, c)
      == AtCount(HasLeft(height, r), HasRight(height, r), HasAbove(height, r), HasBelow(height, width, r), r, height, c)
  {
    SizePositive(height, width, r);
    if height == 1 {
      assert r % 1 == 0 && (r + 1) % 1 == 0;
    }
  }

  /** The entries of row r among the first k columns: the diagonal and the neighbours whose column is below k. */
  lemma {:induction false} RowSumPrefix(height: nat, width: nat, r: nat, k: nat)
    requires r < height * width && k <= height * width
    ensures height > 0
    ensures RowSum(height, width, r, k)
      == BelowCount(HasLeft(height, r), HasRight(height, r), HasAbove(height, r), HasBelow(height, width, r), r, height, k)
  {
    SizePositive(height, width, r);
    if k > 0 {
      RowSumPrefix(height, width, r, k - 1);
      StiffnessEntryAsSum(height, width, r, k - 1);
      RowSumStep(height, width, r, k);
    }
  }

  /** Each row sums to -4 plus its number of neighbours, so never to more than 0. */
  lemma StiffnessRowSum(height: nat, width: nat, r: nat)
    requires r < height * width
    ensures height > 0
    ensures RowSum(height, width, r, height * width) == -4.0 + NeighbourCount(height, width, r)
    ensures RowSum(height, width, r, height * width) <= 0.0
  {
    RowSumPrefix(height, width, r, height * width);
    LastEndsRow(height, width);
    if HasLeft(height, r) {
      assert r % height != 0;
      assert r != 0;
    }
    if HasRight(height, r) {
      assert r + 1 != height * width;
    }
  }

  // ---------------------------------------------------------------------------
  // The solver object
  // ---------------------------------------------------------------------------

  /** source_terms * step_size ** 2, element by element. */
  function LoadVector(sourceTerms: seq<real>, stepSize: real): (load: seq<real>)
    ensures |load| == |sourceTerms|
    ensures forall i :: 0 <= i < |load| ==> load[i] == sourceTerms[i] * stepSize * stepSize
  {
    seq(|sourceTerms|, i requires 0 <= i < |sourceTerms| => sourceTerms[i] * (stepSize * stepSize))
  }

  /** The load of a sum of source vectors is the sum of their loads. */
  lemma LoadVectorAdditive(s1: seq<real>, s2: seq<real>, stepSize: real, i: nat)
    requires |s1| == |s2| && i < |s1|
    ensures LoadVector(seq(|s1|, k requires 0 <= k < |s1| => s1[k] + s2[k]), stepSize)[i]
         == LoadVector(s1, stepSize)[i] + LoadVector(s2, stepSize)[i]
  {
  }

  /** Scaling the source vector by a factor scales the load by the same factor. */
  lemma LoadVectorHomogeneous(sourceTerms: seq<real>, factor: real, stepSize: real, i: nat)
    requires i < |sourceTerms|
    ensures LoadVector(seq(|sourceTerms|, k requires 0 <= k < |sourceTerms| => factor * sourceTerms[k]), stepSize)[i]
         == factor * LoadVector(sourceTerms, stepSize)[i]
  {
  }

  /** The sign of the step does not matter: only its square enters the load. */
  lemma LoadVectorStepSign(sourceTerms: seq<real>, stepSize: real)
    ensures LoadVector(sourceTerms, -stepSize) == LoadVector(sourceTerms, stepSize)
  {
    assert (-stepSize) * (-stepSize) == stepSize * stepSize;
  }

  /** The RuntimeError raised when the source vector does not match the grid. */
  datatype SolverError = SourceTermsLengthMismatch

  class PoissonSolver {
    var height: nat
    var width: nat
    var stepSize: real
    var stiffnessMatrix: array2<real>
    var loadVector: seq<real>

    /** The assignments of __init__, reached once the length check has passed. */
    constructor (height: nat, width: nat, stepSize: real, sourceTerms: seq<real>)
      requires |sourceTerms| == height * width
      ensures this.height == height && this.width == width && this.stepSize == stepSize
      ensures stiffnessMatrix.Length0 == height * width && stiffnessMatrix.Length1 == height * width
      ensures forall r, c :: 0 <= r < height * width && 0 <= c < height * width ==>
        stiffnessMatrix[r, c] == StiffnessEntry(height, width, r, c)
      ensures loadVector == LoadVector(sourceTerms, stepSize)
      ensures |loadVector| == height * width
      ensures forall i :: 0 <= i < |loadVector| ==> loadVector[i] == sourceTerms[i] * (stepSize * stepSize)
    {
      var matrix := AssembleStiffnessMatrix(height, width);
      this.height := height;
      this.width := width;
      this.stepSize := stepSize;
      this.stiffnessMatrix := matrix;
      this.loadVector := LoadVector(sourceTerms, stepSize);
    }

    /** PoissonSolver(height, width, step_size, source_terms): raises unless there is one source term per grid point. */
    static method Create(height: nat, width: nat, stepSize: real, sourceTerms: seq<real>)
      returns (r: Result<PoissonSolver, SolverError>)
      ensures r.Failure? <==> |sourceTerms| != height * width
      ensures r.Success? ==> fresh(r.value)
      ensures r.Success? ==> r.value.height == height && r.value.width == width && r.value.stepSize == stepSize
      ensures r.Success? ==> r.value.loadVector == LoadVector(sourceTerms, stepSize)
      ensures r.Success? ==>
        && r.value.stiffnessMatrix.Length0 == height * width
        && r.value.stiffnessMatrix.Length1 == height * width
        && forall row, c :: 0 <= row < height * width && 0 <= c < height * width ==>
             r.value.stiffnessMatrix[row, c] == StiffnessEntry(height, width, row, c)
    {
      if |sourceTerms| != height * width {
        return Failure(SourceTermsLengthMismatch);
      }
      var solver := new PoissonSolver(height, width, stepSize, sourceTerms);
      r := Success(solver);
    }
  }
}
