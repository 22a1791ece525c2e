/**
 * Jacobi relaxation of the Poisson equation with Neumann boundary conditions
 * (src/jacobi.py).
 *
 * A temperature field is a grid g of W columns of H values: g[i][j] is the
 * temperature at x = i * h, y = j * h, where h is the step width. The left and
 * right boundary gradients are indexed by j, the bottom and top ones by i.
 */
module Jacobi {
  import opened Wrappers
  import Utils

  type Grid = seq<seq<real>>

  /** Boundary gradients of the four sides. */
  datatype Bcs = Bcs(left: seq<real>, right: seq<real>, bottom: seq<real>, top: seq<real>)

  predicate IsGrid(g: Grid, width: nat, height: nat)
  {
    |g| == width && forall i :: 0 <= i < width ==> |g[i]| == height
  }

  /** The sweep reads g[1] and g[W - 2] (and likewise along j), so each side needs two points. */
  predicate Sweepable(g: Grid)
  {
    |g| >= 2 && |g[0]| >= 2 && IsGrid(g, |g|, |g[0]|)
  }

  /** Every gradient the sweep indexes exists. */
  predicate BcsCover(b: Bcs, width: nat, height: nat)
  {
    |b.left| >= height && |b.right| >= height && |b.bottom| >= width && |b.top| >= width
  }

  /** The values of a two-dimensional array, as a grid. */
  function Contents(a: array2<real>): (g: Grid)
    reads a
    ensures IsGrid(g, a.Length0, a.Length1)
    ensures forall i, j :: 0 <= i < a.Length0 && 0 <= j < a.Length1 ==> g[i][j] == a[i, j]
  {
    seq(a.Length0, i requires 0 <= i < a.Length0 reads a =>
      seq(a.Length1, j requires 0 <= j < a.Length1 reads a => a[i, j]))
  }

  lemma GridsEqual(a: Grid, b: Grid, width: nat, height: nat)
    requires IsGrid(a, width, height) && IsGrid(b, width, height)
    requires forall i, j :: 0 <= i < width && 0 <= j < height ==> a[i][j] == b[i][j]
    ensures a == b
  {
    forall i | 0 <= i < width
      ensures a[i] == b[i]
    {
      assert forall j :: 0 <= j < height ==> a[i][j] == b[i][j];
    }
  }

  // ---------------------------------------------------------------------------
  // One sweep, as a function of the old grid
  // ---------------------------------------------------------------------------

  /**
   * The contribution of the x direction to the 5-point stencil at (i, j). On the
   * left and right edges the missing neighbour is a ghost point reflected through
   * the edge, which turns it into twice the inner neighbour plus a gradient term.
   */
  function HorizontalTerm(g: Grid, i: nat, j: nat, b: Bcs, stepWidth: real): real
    requires Sweepable(g) && BcsCover(b, |g|, |g[0]|)
    requires i < |g| && j < |g[0]|
  {
    var width := |g|;
    if i == 0 then 2.0 * g[i + 1][j] - 2.0 * stepWidth * b.left[j]
    else if i == width - 1 then 2.0 * g[i - 1][j] + 2.0 * stepWidth * b.right[j]
    else g[i - 1][j] + g[i + 1][j]
  }

  /** The contribution of the y direction, reflecting at the bottom and top edges. */
  function VerticalTerm(g: Grid, i: nat, j: nat, b: Bcs, stepWidth: real): real
    requires Sweepable(g) && BcsCover(b, |g|, |g[0]|)
    requires i < |g| && j < |g[0]|
  {
    var height := |g[0]|;
    if j == 0 then 2.0 * g[i][j + 1] - 2.0 * stepWidth * b.bottom[i]
    else if j == height - 1 then 2.0 * g[i][j - 1] + 2.0 * stepWidth * b.top[i]
    else g[i][j - 1] + g[i][j + 1]
  }

  function NewCell(g: Grid, i: nat, j: nat, sourceTerm: real, b: Bcs, stepWidth: real): real
    requires Sweepable(g) && BcsCover(b, |g|, |g[0]|)
    requires i < |g| && j < |g[0]|
  {
    (HorizontalTerm(g, i, j, b, stepWidth) + VerticalTerm(g, i, j, b, stepWidth)
      - stepWidth * stepWidth * sourceTerm) / 4.0
  }

  /** The grid one Jacobi sweep makes from g: every cell is computed from g alone. */
  function Sweep(g: Grid, sourceTerm: real, b: Bcs, stepWidth: real): (r: Grid)
    requires Sweepable(g) && BcsCover(b, |g|, |g[0]|)
    ensures Sweepable(r) && IsGrid(r, |g|, |g[0]|)
    ensures forall i, j :: 0 <= i < |g| && 0 <= j < |g[0]| ==> r[i][j] == NewCell(g, i, j, sourceTerm, b, stepWidth)
  {
    seq(|g|, i requires 0 <= i < |g| =>
      seq(|g[0]|, j requires 0 <= j < |g[0]| => NewCell(g, i, j, sourceTerm, b, stepWidth)))
  }

  /** The body of the inner loop of jacobi_poisson_iteration: cell (i, j) of the new grid. */
  method StencilCell(
    previous: array2<real>, i: nat, j: nat, sourceTerm: real,
    leftBcs: seq<real>, rightBcs: seq<real>, bottomBcs: seq<real>, topBcs: seq<real>,
    stepWidth: real)
    returns (cell: real)
    requires previous.Length0 >= 2 && previous.Length1 >= 2
    requires BcsCover(Bcs(leftBcs, rightBcs, bottomBcs, topBcs), previous.Length0, previous.Length1)
    requires i < previous.Length0 && j < previous.Length1
    ensures cell == NewCell(Contents(previous), i, j, sourceTerm, Bcs(leftBcs, rightBcs, bottomBcs, topBcs), stepWidth)
  {
    var width := previous.Length0;
    var height := previous.Length1;
    ghost var g := Contents(previous);
    ghost var b := Bcs(leftBcs, rightBcs, bottomBcs, topBcs);
    ghost var source := stepWidth * stepWidth * sourceTerm;

    // The cell starts at zero and is built up term by term.
    cell := 0.0;
    cell := cell - stepWidth * stepWidth * sourceTerm;

    // Left boundary, right boundary, horizontally interior
    if i == 0 {
      assert g[i + 1][j] == previous[i + 1, j];
      cell := cell + (2.0 * previous[i + 1, j] - 2.0 * stepWidth * leftBcs[j]);
    } else if i == width - 1 {
      assert g[i - 1][j] == previous[i - 1, j];
      cell := cell + (2.0 * previous[i - 1, j] + 2.0 * stepWidth * rightBcs[j]);
    } else {
      assert g[i - 1][j] == previous[i - 1, j] && g[i + 1][j] == previous[i + 1, j];
      cell := cell + (previous[i - 1, j] + previous[i + 1, j]);
    }
    assert cell == HorizontalTerm(g, i, j, b, stepWidth) - source;

    // Bottom boundary, top boundary, vertically interior
    if j == 0 {
      assert g[i][j + 1] == previous[i, j + 1];
      cell := cell + (2.0 * previous[i, j + 1] - 2.0 * stepWidth * bottomBcs[i]);
    } else if j == height - 1 {
      assert g[i][j - 1] == previous[i, j - 1];
      cell := cell + (2.0 * previous[i, j - 1] + 2.0 * stepWidth * topBcs[i]);
    } else {
      assert g[i][j - 1] == previous[i, j - 1] && g[i][j + 1] == previous[i, j + 1];
      cell := cell + (previous[i, j - 1] + previous[i, j + 1]);
    }
    assert cell == HorizontalTerm(g, i, j, b, stepWidth) + VerticalTerm(g, i, j, b, stepWidth) - source;

    cell := cell / 4.0;
  }

  /**
   * The inner loop of jacobi_poisson_iteration: fills column i of next from
   * previous and leaves every other column of next as it was.
   */
  method SweepColumn(
    previous: array2<real>, next: array2<real>, i: nat, sourceTerm: real,
    leftBcs: seq<real>, rightBcs: seq<real>, bottomBcs: seq<real>, topBcs: seq<real>,
    stepWidth: real)
    requires previous != next
    requires previous.Length0 >= 2 && previous.Length1 >= 2
    requires next.Length0 == previous.Length0 && next.Length1 == previous.Length1
    requires BcsCover(Bcs(leftBcs, rightBcs, bottomBcs, topBcs), previous.Length0, previous.Length1)
    requires i < previous.Length0
    modifies next
    ensures forall j :: 0 <= j < next.Length1 ==>
      next[i, j] == NewCell(Contents(previous), i, j, sourceTerm, Bcs(leftBcs, rightBcs, bottomBcs, topBcs), stepWidth)
    ensures forall i', j :: 0 <= i' < next.Length0 && i' != i && 0 <= j < next.Length1 ==> next[i', j] == old(next[i', j])
  {
    for j := 0 to next.Length1
      invariant forall j' :: 0 <= j' < j ==>
        next[i, j'] == NewCell(Contents(previous), i, j', sourceTerm, Bcs(leftBcs, rightBcs, bottomBcs, topBcs), stepWidth)
      invariant forall i', j' :: 0 <= i' < next.Length0 && i' != i && 0 <= j' < next.Length1 ==> next[i', j'] == old(next[i', j'])
    {
      var cell := StencilCell(previous, i, j, sourceTerm, leftBcs, rightBcs, bottomBcs, topBcs, stepWidth);
      next[i, j] := cell;
    }
  }

  /**
   * jacobi_poisson_iteration: allocates a zero grid of the same shape as
   * previous and fills it column by column from previous, which it does not modify.
   */
  method JacobiPoissonIteration(
    previous: array2<real>, sourceTerm: real,
    leftBcs: seq<real>, rightBcs: seq<real>, bottomBcs: seq<real>, topBcs: seq<real>,
    stepWidth: real)
    returns (next: array2<real>)
    requires previous.Length0 >= 2 && previous.Length1 >= 2
    requires BcsCover(Bcs(leftBcs, rightBcs, bottomBcs, topBcs), previous.Length0, previous.Length1)
    ensures fresh(next)
    ensures next.Length0 == previous.Length0 && next.Length1 == previous.Length1
    ensures Contents(next) == Sweep(Contents(previous), sourceTerm, Bcs(leftBcs, rightBcs, bottomBcs, topBcs), stepWidth)
  {
    var width := previous.Length0;
    var height := previous.Length1;
    ghost var g := Contents(previous);
    ghost var b := Bcs(leftBcs, rightBcs, bottomBcs, topBcs);
    ghost var target := Sweep(g, sourceTerm, b, stepWidth);
    next := new real[width, height]((_, _) => 0.0);
    for i := 0 to width
      invariant fresh(next)
      invariant Contents(previous) == g
      invariant forall i', j' :: 0 <= i' < i && 0 <= j' < height ==> next[i', j'] == target[i'][j']
    {
      SweepColumn(previous, next, i, sourceTerm, leftBcs, rightBcs, bottomBcs, topBcs, stepWidth);
    }
    GridsEqual(Contents(next), target, width, height);
  }

  // ---------------------------------------------------------------------------
  // The stencil, index class by index class
  // ---------------------------------------------------------------------------

  lemma SweepInterior(g: Grid, sourceTerm: real, b: Bcs, stepWidth: real, i: nat, j: nat)
    requires Sweepable(g) && BcsCover(b, |g|, |g[0]|)
    requires 0 < i < |g| - 1 && 0 < j < |g[0]| - 1
    ensures Sweep(g, sourceTerm, b, stepWidth)[i][j]
      == (g[i - 1][j] + g[i + 1][j] + g[i][j - 1] + g[i][j + 1] - stepWidth * stepWidth * sourceTerm) / 4.0
  {
  }

  lemma SweepLeftRightEdges(g: Grid, sourceTerm: real, b: Bcs, stepWidth: real, j: nat)
    requires Sweepable(g) && BcsCover(b, |g|, |g[0]|)
    requires 0 < j < |g[0]| - 1
    ensures Sweep(g, sourceTerm, b, stepWidth)[0][j]
      == (2.0 * g[1][j] - 2.0 * stepWidth * b.left[j] + g[0][j - 1] + g[0][j + 1]
          - stepWidth * stepWidth * sourceTerm) / 4.0
    ensures var w := |g|;
      Sweep(g, sourceTerm, b, stepWidth)[w - 1][j]
        == (2.0 * g[w - 2][j] + 2.0 * stepWidth * b.right[j] + g[w - 1][j - 1] + g[w - 1][j + 1]
            - stepWidth * stepWidth * sourceTerm) / 4.0
  {
  }

  lemma SweepBottomTopEdges(g: Grid, sourceTerm: real, b: Bcs, stepWidth: real, i: nat)
    requires Sweepable(g) && BcsCover(b, |g|, |g[0]|)
    requires 0 < i < |g| - 1
    ensures Sweep(g, sourceTerm, b, stepWidth)[i][0]
      == (g[i - 1][0] + g[i + 1][0] + 2.0 * g[i][1] - 2.0 * stepWidth * b.bottom[i]
          - stepWidth * stepWidth * sourceTerm) / 4.0
    ensures var h := |g[0]|;
      Sweep(g, sourceTerm, b, stepWidth)[i][h - 1]
        == (g[i - 1][h - 1] + g[i + 1][h - 1] + 2.0 * g[i][h - 2] + 2.0 * stepWidth * b.top[i]
            - stepWidth * stepWidth * sourceTerm) / 4.0
  {
  }

  /** Each corner combines the reflection of one vertical and one horizontal edge. */
  lemma SweepCorners(g: Grid, sourceTerm: real, b: Bcs, stepWidth: real)
    requires Sweepable(g) && BcsCover(b, |g|, |g[0]|)
    ensures var w, h, s := |g|, |g[0]|, stepWidth * stepWidth * sourceTerm;
      var r := Sweep(g, sourceTerm, b, stepWidth);
      && r[0][0] == (2.0 * g[1][0] - 2.0 * stepWidth * b.left[0] + 2.0 * g[0][1] - 2.0 * stepWidth * b.bottom[0] - s) / 4.0
      && r[w - 1][0] == (2.0 * g[w - 2][0] + 2.0 * stepWidth * b.right[0] + 2.0 * g[w - 1][1] - 2.0 * stepWidth * b.bottom[w - 1] - s) / 4.0
      && r[0][h - 1] == (2.0 * g[1][h - 1] - 2.0 * stepWidth * b.left[h - 1] + 2.0 * g[0][h - 2] + 2.0 * stepWidth * b.top[0] - s) / 4.0
      && r[w - 1][h - 1] == (2.0 * g[w - 2][h - 1] + 2.0 * stepWidth * b.right[h - 1] + 2.0 * g[w - 1][h - 2] + 2.0 * stepWidth * b.top[w - 1] - s) / 4.0
  {
    var w, h := |g|, |g[0]|;
    SweepCornerCell(g, sourceTerm, b, stepWidth, 0, 0);
    SweepCornerCell(g, sourceTerm, b, stepWidth, w - 1, 0);
    SweepCornerCell(g, sourceTerm, b, stepWidth, 0, h - 1);
    SweepCornerCell(g, sourceTerm, b, stepWidth, w - 1, h - 1);
  }

  /** One corner cell: both reflection terms apply to it. */
  lemma SweepCornerCell(g: Grid, sourceTerm: real, b: Bcs, stepWidth: real, i: nat, j: nat)
    requires Sweepable(g) && BcsCover(b, |g|, |g[0]|)
    requires (i == 0 || i == |g| - 1) && (j == 0 || j == |g[0]| - 1)
    ensures var w, h := |g|, |g[0]|;
      var horizontal := if i == 0 then 2.0 * g[1][j] - 2.0 * stepWidth * b.left[j]
                        else 2.0 * g[w - 2][j] + 2.0 * stepWidth * b.right[j];
      var vertical := if j == 0 then 2.0 * g[i][1] - 2.0 * stepWidth * b.bottom[i]
                      else 2.0 * g[i][h - 2] + 2.0 * stepWidth * b.top[i];
      Sweep(g, sourceTerm, b, stepWidth)[i][j] == (horizontal + vertical - stepWidth * stepWidth * sourceTerm) / 4.0
  {
    assert Sweep(g, sourceTerm, b, stepWidth)[i][j] == NewCell(g, i, j, sourceTerm, b, stepWidth);
  }

  /**
   * Jacobi semantics: a new cell depends only on the old values of its four
   * neighbours (its own old value is never read).
   */
  lemma SweepReadsOnlyNeighbours(g1: Grid, g2: Grid, sourceTerm: real, b: Bcs, stepWidth: real, i: nat, j: nat)
    requires Sweepable(g1) && IsGrid(g2, |g1|, |g1[0]|) && BcsCover(b, |g1|, |g1[0]|)
    requires i < |g1| && j < |g1[0]|
    requires forall i', j' ::
      0 <= i' < |g1| && 0 <= j' < |g1[0]| && (i' - i) * (i' - i) + (j' - j) * (j' - j) == 1
      ==> g1[i'][j'] == g2[i'][j']
    ensures Sweep(g1, sourceTerm, b, stepWidth)[i][j] == Sweep(g2, sourceTerm, b, stepWidth)[i][j]
  {
    var w, h := |g1|, |g1[0]|;
    if i > 0 { assert g1[i - 1][j] == g2[i - 1][j]; }
    if i < w - 1 { assert g1[i + 1][j] == g2[i + 1][j]; }
    if j > 0 { assert g1[i][j - 1] == g2[i][j - 1]; }
    if j < h - 1 { assert g1[i][j + 1] == g2[i][j + 1]; }
  }

  // ---------------------------------------------------------------------------
  // Fixed points of a sweep
  // ---------------------------------------------------------------------------

  function Uniform(width: nat, height: nat, t: real): (r: Grid)
    ensures IsGrid(r, width, height)
    ensures forall i, j :: 0 <= i < width && 0 <= j < height ==> r[i][j] == t
  {
    seq(width, _ => seq(height, _ => t))
  }

  /** Every gradient of every side is zero: the boundary is insulated. */
  predicate Insulated(b: Bcs, width: nat, height: nat)
  {
    && BcsCover(b, width, height)
    && (forall j :: 0 <= j < height ==> b.left[j] == 0.0 && b.right[j] == 0.0)
    && (forall i :: 0 <= i < width ==> b.bottom[i] == 0.0 && b.top[i] == 0.0)
  }

  /** A uniform field with no source and an insulated boundary is unchanged by a sweep. */
  lemma UniformFixedPoint(width: nat, height: nat, t: real, b: Bcs, stepWidth: real)
    requires width >= 2 && height >= 2 && Insulated(b, width, height)
    ensures Sweep(Uniform(width, height, t), 0.0, b, stepWidth) == Uniform(width, height, t)
  {
    var g := Uniform(width, height, t);
    var r := Sweep(g, 0.0, b, stepWidth);
    forall i, j | 0 <= i < width && 0 <= j < height
      ensures r[i][j] == g[i][j]
    {
      assert HorizontalTerm(g, i, j, b, stepWidth) == 2.0 * t;
      assert VerticalTerm(g, i, j, b, stepWidth) == 2.0 * t;
    }
    GridsEqual(r, g, width, height);
  }

  /** u = ax * x + ay * y + c sampled at x = i * stepWidth, y = j * stepWidth. */
  function Linear(width: nat, height: nat, ax: real, ay: real, c: real, stepWidth: real): (r: Grid)
    ensures IsGrid(r, width, height)
    ensures forall i, j :: 0 <= i < width && 0 <= j < height ==> r[i][j] == LinearAt(ax, ay, c, stepWidth, i, j)
  {
    seq(width, i => seq(height, j => LinearAt(ax, ay, c, stepWidth, i, j)))
  }

  function LinearAt(ax: real, ay: real, c: real, stepWidth: real, i: int, j: int): real
  {
    ax * (i as real * stepWidth) + ay * (j as real * stepWidth) + c
  }

  /** The left and right gradients are all ax, the bottom and top ones all ay. */
  predicate GradientBcs(b: Bcs, width: nat, height: nat, ax: real, ay: real)
  {
    && BcsCover(b, width, height)
    && (forall j :: 0 <= j < height ==> b.left[j] == ax && b.right[j] == ax)
    && (forall i :: 0 <= i < width ==> b.bottom[i] == ay && b.top[i] == ay)
  }

  /** Neighbours of a sample of a linear field average to the sample; the edge reflections agree with the slope. */
  lemma LinearNeighbours(ax: real, ay: real, c: real, stepWidth: real, i: int, j: int)
    ensures LinearAt(ax, ay, c, stepWidth, i - 1, j) + LinearAt(ax, ay, c, stepWidth, i + 1, j)
      == 2.0 * LinearAt(ax, ay, c, stepWidth, i, j)
    ensures LinearAt(ax, ay, c, stepWidth, i, j - 1) + LinearAt(ax, ay, c, stepWidth, i, j + 1)
      == 2.0 * LinearAt(ax, ay, c, stepWidth, i, j)
    ensures 2.0 * LinearAt(ax, ay, c, stepWidth, i + 1, j) - 2.0 * stepWidth * ax
      == 2.0 * LinearAt(ax, ay, c, stepWidth, i, j)
    ensures 2.0 * LinearAt(ax, ay, c, stepWidth, i - 1, j) + 2.0 * stepWidth * ax
      == 2.0 * LinearAt(ax, ay, c, stepWidth, i, j)
    ensures 2.0 * LinearAt(ax, ay, c, stepWidth, i, j + 1) - 2.0 * stepWidth * ay
      == 2.0 * LinearAt(ax, ay, c, stepWidth, i, j)
    ensures 2.0 * LinearAt(ax, ay, c, stepWidth, i, j - 1) + 2.0 * stepWidth * ay
      == 2.0 * LinearAt(ax, ay, c, stepWidth, i, j)
  {
    var x, y := i as real * stepWidth, j as real * stepWidth;
    assert (i - 1) as real * stepWidth == x - stepWidth;
    assert (i + 1) as real * stepWidth == x + stepWidth;
    assert (j - 1) as real * stepWidth == y - stepWidth;
    assert (j + 1) as real * stepWidth == y + stepWidth;
    assert ax * (x - stepWidth) == ax * x - ax * stepWidth;
    assert ax * (x + stepWidth) == ax * x + ax * stepWidth;
    assert ay * (y - stepWidth) == ay * y - ay * stepWidth;
    assert ay * (y + stepWidth) == ay * y + ay * stepWidth;
  }

  /**
   * A linear field with no source is a fixed point of a sweep when the left and
   * right gradients equal its x slope and the bottom and top ones its y slope.
   */
  lemma LinearFixedPoint(width: nat, height: nat, ax: real, ay: real, c: real, b: Bcs, stepWidth: real)
    requires width >= 2 && height >= 2 && GradientBcs(b, width, height, ax, ay)
    ensures Sweep(Linear(width, height, ax, ay, c, stepWidth), 0.0, b, stepWidth)
      == Linear(width, height, ax, ay, c, stepWidth)
  {
    var g := Linear(width, height, ax, ay, c, stepWidth);
    var r := Sweep(g, 0.0, b, stepWidth);
    forall i, j | 0 <= i < width && 0 <= j < height
      ensures r[i][j] == g[i][j]
    {
      LinearTerms(width, height, ax, ay, c, b, stepWidth, i, j);
      assert r[i][j] == NewCell(g, i, j, 0.0, b, stepWidth);
    }
    GridsEqual(r, g, width, height);
  }

  /** At every cell of a linear field with matching gradients, each direction contributes twice the cell's value. */
  lemma LinearTerms(width: nat, height: nat, ax: real, ay: real, c: real, b: Bcs, stepWidth: real, i: nat, j: nat)
    requires width >= 2 && height >= 2 && GradientBcs(b, width, height, ax, ay)
    requires i < width && j < height
    ensures var g := Linear(width, height, ax, ay, c, stepWidth);
      && HorizontalTerm(g, i, j, b, stepWidth) == 2.0 * g[i][j]
      && VerticalTerm(g, i, j, b, stepWidth) == 2.0 * g[i][j]
  {
    var g := Linear(width, height, ax, ay, c, stepWidth);
    LinearNeighbours(ax, ay, c, stepWidth, i, j);
    if i == 0 {
      assert g[i + 1][j] == LinearAt(ax, ay, c, stepWidth, i + 1, j) && b.left[j] == ax;
    } else if i == width - 1 {
      assert g[i - 1][j] == LinearAt(ax, ay, c, stepWidth, i - 1, j) && b.right[j] == ax;
    } else {
      assert g[i - 1][j] == LinearAt(ax, ay, c, stepWidth, i - 1, j);
      assert g[i + 1][j] == LinearAt(ax, ay, c, stepWidth, i + 1, j);
    }
    if j == 0 {
      assert g[i][j + 1] == LinearAt(ax, ay, c, stepWidth, i, j + 1) && b.bottom[i] == ay;
    } else if j == height - 1 {
      assert g[i][j - 1] == LinearAt(ax, ay, c, stepWidth, i, j - 1) && b.top[i] == ay;
    } else {
      assert g[i][j - 1] == LinearAt(ax, ay, c, stepWidth, i, j - 1);
      assert g[i][j + 1] == LinearAt(ax, ay, c, stepWidth, i, j + 1);
    }
  }

  // ---------------------------------------------------------------------------
  // Convergence test
  // ---------------------------------------------------------------------------

  /** The grid's values in row-major order, as numpy flattens them for its norm. */
  function Flatten(g: Grid): seq<real>
  {
    if g == [] then [] else g[0] + Flatten(g[1..])
  }

  /** np.linalg.norm of a grid: the square root of the sum of the squares of its values. */
  function GridNorm(g: Grid, sqrt: real -> real): real
  {
    sqrt(Utils.SumSquares(Flatten(g)))
  }

  /**
   * fractional_change: |(norm(current) - norm(previous)) / norm(previous)|. When
   * norm(previous) is zero the float division yields inf or nan, which is None here.
   */
  function FractionalChange(current: Grid, previous: Grid, sqrt: real -> real): (r: Option<real>)
    ensures r.None? <==> GridNorm(previous, sqrt) == 0.0
    ensures r.Some? ==> 0.0 <= r.value
    ensures r.Some? ==>
      (r.value * Utils.Abs(GridNorm(previous, sqrt)) == Utils.Abs(GridNorm(current, sqrt) - GridNorm(previous, sqrt)))
  {
    var numerator := GridNorm(current, sqrt) - GridNorm(previous, sqrt);
    var denominator := GridNorm(previous, sqrt);
    if denominator == 0.0 then None else Some(RelativeChange(numerator, denominator))
  }

  /** abs(n / d): the size of n relative to d. */
  function RelativeChange(n: real, d: real): (q: real)
    requires d != 0.0
    ensures 0.0 <= q && q * Utils.Abs(d) == Utils.Abs(n)
  {
    AbsOfQuotient(n, d);
    Utils.Abs(n / d)
  }

  lemma AbsOfQuotient(n: real, d: real)
    requires d != 0.0
    ensures Utils.Abs(n / d) * Utils.Abs(d) == Utils.Abs(n)
  {
    var q := n / d;
    assert q * d == n;
    if d < 0.0 {
      assert Utils.Abs(d) == -d;
      assert Utils.Abs(q) * -d == Utils.Abs(n);
    } else {
      assert Utils.Abs(q) * d == Utils.Abs(n);
    }
  }

  /** A grid compared with itself shows no change, unless its norm is zero. */
  lemma FractionalChangeSelf(g: Grid, sqrt: real -> real)
    requires GridNorm(g, sqrt) != 0.0
    ensures FractionalChange(g, g, sqrt) == Some(0.0)
  {
  }

  // ---------------------------------------------------------------------------
  // The solve loop
  // ---------------------------------------------------------------------------

  /**
   * The inputs of jacobi_poisson_solve that stay fixed during the loop. The
   * square root inside np.linalg.norm is the parameter sqrt.
   */
  datatype Setup = Setup(
    sourceTerm: real,
    stepWidth: real,
    stoppingCondition: real,
    maxIterations: nat,
    bcUpdateFunc: Option<Grid --> Bcs>,
    sqrt: real -> real)

  /** bc_update_func, when given, accepts every grid of the solve's shape and returns gradients that cover it. */
  ghost predicate UpdateFits(update: Option<Grid --> Bcs>, width: nat, height: nat)
  {
    update.Some? ==>
      forall g :: IsGrid(g, width, height) ==> update.value.requires(g) && BcsCover(update.value(g), width, height)
  }

  /** The boundary gradients for the sweep after the one that produced next. */
  function NextBcs(next: Grid, b: Bcs, s: Setup): (r: Bcs)
    requires Sweepable(next) && UpdateFits(s.bcUpdateFunc, |next|, |next[0]|)
    requires BcsCover(b, |next|, |next[0]|)
    ensures BcsCover(r, |next|, |next[0]|)
  {
    if s.bcUpdateFunc.Some? then s.bcUpdateFunc.value(next) else b
  }

  predicate Converged(current: Grid, previous: Grid, s: Setup)
  {
    var change := FractionalChange(current, previous, s.sqrt);
    change.Some? && change.value < s.stoppingCondition
  }

  ghost predicate Solvable(g: Grid, b: Bcs, s: Setup)
  {
    Sweepable(g) && BcsCover(b, |g|, |g[0]|) && UpdateFits(s.bcUpdateFunc, |g|, |g[0]|)
  }

  /**
   * The loop of jacobi_poisson_solve entered with grid g, gradients b and the
   * given counter: sweep, refresh the gradients, count, stop at the cap, then
   * stop on convergence.
   */
  function SolveLoop(g: Grid, b: Bcs, counter: nat, s: Setup): (r: Grid)
    requires Solvable(g, b, s) && counter <= s.maxIterations
    ensures Sweepable(r) && IsGrid(r, |g|, |g[0]|)
    decreases s.maxIterations - counter
  {
    var next := Sweep(g, s.sourceTerm, b, s.stepWidth);
    var nextBcs := NextBcs(next, b, s);
    if counter + 1 > s.maxIterations then next
    else if Converged(next, g, s) then next
    else SolveLoop(next, nextBcs, counter + 1, s)
  }

  /** jacobi_poisson_solve: the loop started from a (width, height) grid filled with tGuess. */
  function Solve(height: nat, width: nat, b: Bcs, tGuess: real, s: Setup): (r: Grid)
    requires width >= 2 && height >= 2 && Solvable(Uniform(width, height, tGuess), b, s)
    ensures IsGrid(r, width, height)
  {
    SolveLoop(Uniform(width, height, tGuess), b, 0, s)
  }

  /** k sweeps from g, with the gradients refreshed after each: the reference for the loop. */
  function Iterate(g: Grid, b: Bcs, k: nat, s: Setup): (r: Grid)
    requires Solvable(g, b, s)
    ensures Sweepable(r) && IsGrid(r, |g|, |g[0]|)
    decreases k
  {
    if k == 0 then g
    else
      var next := Sweep(g, s.sourceTerm, b, s.stepWidth);
      Iterate(next, NextBcs(next, b, s), k - 1, s)
  }

  method JacobiPoissonSolve(
    height: nat, width: nat, sourceTerm: real,
    leftBcs: seq<real>, rightBcs: seq<real>, bottomBcs: seq<real>, topBcs: seq<real>,
    tGuess: real, stepWidth: real, stoppingCondition: real, maxIterations: nat,
    bcUpdateFunc: Option<Grid --> Bcs>, sqrt: real -> real)
    returns (solution: array2<real>)
    requires width >= 2 && height >= 2
    requires BcsCover(Bcs(leftBcs, rightBcs, bottomBcs, topBcs), width, height)
    requires UpdateFits(bcUpdateFunc, width, height)
    ensures solution.Length0 == width && solution.Length1 == height
    ensures Contents(solution) == Solve(height, width, Bcs(leftBcs, rightBcs, bottomBcs, topBcs), tGuess,
      Setup(sourceTerm, stepWidth, stoppingCondition, maxIterations, bcUpdateFunc, sqrt))
  {
    ghost var s := Setup(sourceTerm, stepWidth, stoppingCondition, maxIterations, bcUpdateFunc, sqrt);
    ghost var result := Solve(height, width, Bcs(leftBcs, rightBcs, bottomBcs, topBcs), tGuess, s);

    // Every cell starts at tGuess.
    solution := new real[width, height]((_, _) => tGuess);
    GridsEqual(Contents(solution), Uniform(width, height, tGuess), width, height);

    var left, right, bottom, top := leftBcs, rightBcs, bottomBcs, topBcs;
    var counter := 0;
    while true
      invariant counter <= maxIterations
      invariant solution.Length0 == width && solution.Length1 == height
      invariant BcsCover(Bcs(left, right, bottom, top), width, height)
      invariant SolveLoop(Contents(solution), Bcs(left, right, bottom, top), counter, s) == result
      decreases maxIterations - counter
    {
      var oldSolution := solution;
      ghost var oldBcs := Bcs(left, right, bottom, top);
      ghost var g := Contents(oldSolution);
      SolveLoopStep(g, oldBcs, counter, s);

      // One sweep from the grid of the previous pass.
      solution := JacobiPoissonIteration(oldSolution, sourceTerm, left, right, bottom, top, stepWidth);
      assert Contents(oldSolution) == g;
      ghost var next := Contents(solution);
      assert next == Sweep(g, sourceTerm, oldBcs, stepWidth);

      // With an update function, the gradients for the next pass come from the new grid.
      if bcUpdateFunc.Some? {
        var updated := bcUpdateFunc.value(Contents(solution));
        left, right, bottom, top := updated.left, updated.right, updated.bottom, updated.top;
      }
      assert Bcs(left, right, bottom, top) == NextBcs(next, oldBcs, s);

      counter := counter + 1;
      if counter > maxIterations {
        break;
      }

      // Only once the cap is not reached: stop when the relative norm change is small enough.
      var fracChange := FractionalChange(Contents(solution), Contents(oldSolution), sqrt);
      if fracChange.Some? && fracChange.value < stoppingCondition {
        break;
      }
    }
  }

  /** One pass of the loop: it either stops with the sweep of g or continues from it. */
  lemma SolveLoopStep(g: Grid, b: Bcs, counter: nat, s: Setup)
    requires Solvable(g, b, s) && counter <= s.maxIterations
    ensures var next := Sweep(g, s.sourceTerm, b, s.stepWidth);
      && Solvable(next, NextBcs(next, b, s), s)
      && (counter + 1 > s.maxIterations || Converged(next, g, s) ==> SolveLoop(g, b, counter, s) == next)
      && (counter + 1 <= s.maxIterations && !Converged(next, g, s) ==>
            SolveLoop(g, b, counter, s) == SolveLoop(next, NextBcs(next, b, s), counter + 1, s))
  {
  }

  // ---------------------------------------------------------------------------
  // What the loop computes
  // ---------------------------------------------------------------------------

  /**
   * The loop runs k sweeps, 1 <= k <= maxIterations + 1 - counter; it stops
   * before the cap only after a sweep that passed the convergence test, and no
   * earlier sweep passed it.
   */
  lemma {:induction false} SolveLoopIsIterate(g: Grid, b: Bcs, counter: nat, s: Setup) returns (k: nat)
    requires Solvable(g, b, s) && counter <= s.maxIterations
    ensures 1 <= k <= s.maxIterations + 1 - counter
    ensures SolveLoop(g, b, counter, s) == Iterate(g, b, k, s)
    ensures k < s.maxIterations + 1 - counter ==> Converged(Iterate(g, b, k, s), Iterate(g, b, k - 1, s), s)
    ensures forall k' :: 1 <= k' < k ==> !Converged(Iterate(g, b, k', s), Iterate(g, b, k' - 1, s), s)
    decreases s.maxIterations - counter
  {
    var next := Sweep(g, s.sourceTerm, b, s.stepWidth);
    var nextBcs := NextBcs(next, b, s);
    assert Iterate(g, b, 1, s) == next;
    if counter + 1 > s.maxIterations || Converged(next, g, s) {
      k := 1;
    } else {
      var k1 := SolveLoopIsIterate(next, nextBcs, counter + 1, s);
      k := k1 + 1;
      forall k' | 1 <= k' <= k
        ensures Iterate(g, b, k', s) == Iterate(next, nextBcs, k' - 1, s)
      {
      }
      forall k' | 1 <= k' < k
        ensures !Converged(Iterate(g, b, k', s), Iterate(g, b, k' - 1, s), s)
      {
        if k' > 1 {
          assert Iterate(g, b, k' - 1, s) == Iterate(next, nextBcs, k' - 2, s);
        }
      }
    }
  }

  /**
   * jacobi_poisson_solve returns the grid after k sweeps of the uniform guess,
   * for some 1 <= k <= maxIterations + 1.
   */
  lemma SolveSweepCount(height: nat, width: nat, b: Bcs, tGuess: real, s: Setup) returns (k: nat)
    requires width >= 2 && height >= 2 && Solvable(Uniform(width, height, tGuess), b, s)
    ensures 1 <= k <= s.maxIterations + 1
    ensures Solve(height, width, b, tGuess, s) == Iterate(Uniform(width, height, tGuess), b, k, s)
  {
    k := SolveLoopIsIterate(Uniform(width, height, tGuess), b, 0, s);
  }

  /** With maxIterations = 0 exactly one sweep runs: the result is not the guess itself. */
  lemma SolveMaxIterationsZero(height: nat, width: nat, b: Bcs, tGuess: real, s: Setup)
    requires width >= 2 && height >= 2 && Solvable(Uniform(width, height, tGuess), b, s)
    requires s.maxIterations == 0
    ensures Solve(height, width, b, tGuess, s) == Sweep(Uniform(width, height, tGuess), s.sourceTerm, b, s.stepWidth)
  {
  }

  /**
   * A grid that a sweep leaves unchanged, under the current gradients and under
   * every refreshed gradient, is what the loop returns.
   */
  lemma {:induction false} SolveLoopFixedPoint(g: Grid, b: Bcs, counter: nat, s: Setup)
    requires Solvable(g, b, s) && counter <= s.maxIterations
    requires Sweep(g, s.sourceTerm, b, s.stepWidth) == g
    requires s.bcUpdateFunc.Some? ==> Sweep(g, s.sourceTerm, s.bcUpdateFunc.value(g), s.stepWidth) == g
    ensures SolveLoop(g, b, counter, s) == g
    decreases s.maxIterations - counter
  {
    var nextBcs := NextBcs(g, b, s);
    if counter + 1 <= s.maxIterations && !Converged(g, g, s) {
      SolveLoopFixedPoint(g, nextBcs, counter + 1, s);
    }
  }

  /**
   * An insulated solve with no source keeps the uniform guess exactly, however
   * many sweeps run, provided any refreshed gradients are insulated too.
   */
  lemma SolveInsulatedUniform(height: nat, width: nat, b: Bcs, tGuess: real, s: Setup)
    requires width >= 2 && height >= 2 && Solvable(Uniform(width, height, tGuess), b, s)
    requires s.sourceTerm == 0.0 && Insulated(b, width, height)
    requires s.bcUpdateFunc.Some? ==> Insulated(s.bcUpdateFunc.value(Uniform(width, height, tGuess)), width, height)
    ensures Solve(height, width, b, tGuess, s) == Uniform(width, height, tGuess)
  {
    var g := Uniform(width, height, tGuess);
    UniformFixedPoint(width, height, tGuess, b, s.stepWidth);
    if s.bcUpdateFunc.Some? {
      UniformFixedPoint(width, height, tGuess, s.bcUpdateFunc.value(g), s.stepWidth);
    }
    SolveLoopFixedPoint(g, b, 0, s);
  }

  // ---------------------------------------------------------------------------
  // Boundary gradients from the surface temperature
  // ---------------------------------------------------------------------------

  /** Thermal conductivity (W/mK) that natural_bcs divides the flux by. */
  const THERMAL_CONDUCTIVITY: real := 150.0

  /**
   * natural_bcs, with the dissipation law as a parameter: the flux at each
   * border cell divided by the conductivity, negated on the right and top sides.
   */
  function NaturalBcs(temperatures: Grid, dissipation: real -> real): (b: Bcs)
    requires |temperatures| > 0 && |temperatures[0]| > 0 && IsGrid(temperatures, |temperatures|, |temperatures[0]|)
    ensures |b.left| == |b.right| == |temperatures[0]| && |b.bottom| == |b.top| == |temperatures|
    ensures BcsCover(b, |temperatures|, |temperatures[0]|)
  {
    var width, height := |temperatures|, |temperatures[0]|;
    Bcs(
      seq(height, j requires 0 <= j < height => dissipation(temperatures[0][j]) / THERMAL_CONDUCTIVITY),
      seq(height, j requires 0 <= j < height => -dissipation(temperatures[width - 1][j]) / THERMAL_CONDUCTIVITY),
      seq(width, i requires 0 <= i < width => dissipation(temperatures[i][0]) / THERMAL_CONDUCTIVITY),
      seq(width, i requires 0 <= i < width => -dissipation(temperatures[i][height - 1]) / THERMAL_CONDUCTIVITY))
  }

  /**
   * Opposite sides of a border at a single temperature get opposite gradients:
   * the outward flux is the same, and the right and top sides are negated.
   */
  lemma NaturalBcsOppositeSides(width: nat, height: nat, t: real, dissipation: real -> real)
    requires width > 0 && height > 0
    ensures var b := NaturalBcs(Uniform(width, height, t), dissipation);
      && (forall j :: 0 <= j < height ==> b.right[j] == -b.left[j])
      && (forall i :: 0 <= i < width ==> b.top[i] == -b.bottom[i])
  {
  }

  /**
   * Under a dissipation law with no flux at the ambient temperature, a uniform
   * grid at that temperature, with no source and insulated initial gradients,
   * is returned unchanged by a solve that refreshes its gradients with natural_bcs.
   */
  lemma SolveAmbientSteady(height: nat, width: nat, b: Bcs, ambient: real, dissipation: real -> real, s: Setup)
    requires width >= 2 && height >= 2 && Insulated(b, width, height)
    requires dissipation(ambient) == 0.0
    requires s.sourceTerm == 0.0 && s.bcUpdateFunc.Some?
    requires UpdateFits(s.bcUpdateFunc, width, height)
    requires forall g :: IsGrid(g, width, height) ==> s.bcUpdateFunc.value(g) == NaturalBcs(g, dissipation)
    ensures Solve(height, width, b, ambient, s) == Uniform(width, height, ambient)
  {
    var g := Uniform(width, height, ambient);
    assert s.bcUpdateFunc.value(g) == NaturalBcs(g, dissipation);
    SolveInsulatedUniform(height, width, b, ambient, s);
  }

  // ---------------------------------------------------------------------------
  // Average surface temperature
  // ---------------------------------------------------------------------------

  function Sum(s: seq<real>): real
  {
    if s == [] then 0.0 else Sum(s[..|s| - 1]) + s[|s| - 1]
  }

  /** np.mean */
  function Mean(s: seq<real>): real
    requires |s| > 0
  {
    Sum(s) / |s| as real
  }

  /**
   * The samples average_surf_temp collects, in order: the left column, the
   * right column, the bottom row, the top row. Corners appear twice.
   */
  function BorderSamples(g: Grid): (r: seq<real>)
    requires |g| > 0 && |g[0]| > 0 && IsGrid(g, |g|, |g[0]|)
    ensures |r| == 2 * |g[0]| + 2 * |g|
  {
    var width, height := |g|, |g[0]|;
    seq(height, j requires 0 <= j < height => g[0][j])
      + seq(height, j requires 0 <= j < height => g[width - 1][j])
      + seq(width, i requires 0 <= i < width => g[i][0])
      + seq(width, i requires 0 <= i < width => g[i][height - 1])
  }

  method AverageSurfTemp(temperatures: array2<real>) returns (averageTemp: real)
    requires temperatures.Length0 > 0 && temperatures.Length1 > 0
    ensures averageTemp == Mean(BorderSamples(Contents(temperatures)))
  {
    var height := temperatures.Length1;
    var width := temperatures.Length0;
    ghost var g := Contents(temperatures);

    var surfaceTemps: seq<real> := [];
    // Column i = 0, bottom to top.
    for i := 0 to height
      invariant surfaceTemps == seq(i, j requires 0 <= j < i => g[0][j])
    {
      surfaceTemps := surfaceTemps + [temperatures[0, i]];
    }
    ghost var left := surfaceTemps;

    // Column i = width - 1, bottom to top.
    for i := 0 to height
      invariant surfaceTemps == left + seq(i, j requires 0 <= j < i => g[width - 1][j])
    {
      surfaceTemps := surfaceTemps + [temperatures[width - 1, i]];
    }
    ghost var leftRight := surfaceTemps;

    // Row j = 0, left to right.
    for i := 0 to width
      invariant surfaceTemps == leftRight + seq(i, k requires 0 <= k < i => g[k][0])
    {
      surfaceTemps := surfaceTemps + [temperatures[i, 0]];
    }
    ghost var leftRightBottom := surfaceTemps;

    // Row j = height - 1, left to right.
    for i := 0 to width
      invariant surfaceTemps == leftRightBottom + seq(i, k requires 0 <= k < i => g[k][height - 1])
    {
      surfaceTemps := surfaceTemps + [temperatures[i, height - 1]];
    }

    assert surfaceTemps == BorderSamples(g);
    averageTemp := Mean(surfaceTemps);
  }

  lemma {:induction false} SumBounds(s: seq<real>, lo: real, hi: real)
    requires forall k :: 0 <= k < |s| ==> lo <= s[k] <= hi
    ensures |s| as real * lo <= Sum(s) <= |s| as real * hi
  {
    if s != [] {
      var n := |s| - 1;
      SumBounds(s[..n], lo, hi);
      assert (n + 1) as real * lo == n as real * lo + lo;
      assert (n + 1) as real * hi == n as real * hi + hi;
    }
  }

  /** The mean lies between any lower and upper bound of the samples. */
  lemma MeanBounds(s: seq<real>, lo: real, hi: real)
    requires |s| > 0
    requires forall k :: 0 <= k < |s| ==> lo <= s[k] <= hi
    ensures lo <= Mean(s) <= hi
  {
    SumBounds(s, lo, hi);
    var n := |s| as real;
    assert Sum(s) / n >= lo by { assert Sum(s) >= n * lo; }
    assert Sum(s) / n <= hi by { assert Sum(s) <= n * hi; }
  }

  predicate OnBorder(i: nat, j: nat, width: nat, height: nat)
  {
    i == 0 || i == width - 1 || j == 0 || j == height - 1
  }

  /** The average surface temperature lies between any bounds of the border cells. */
  lemma AverageWithinBorderBounds(g: Grid, lo: real, hi: real)
    requires |g| > 0 && |g[0]| > 0 && IsGrid(g, |g|, |g[0]|)
    requires forall i, j :: 0 <= i < |g| && 0 <= j < |g[0]| && OnBorder(i, j, |g|, |g[0]|) ==> lo <= g[i][j] <= hi
    ensures lo <= Mean(BorderSamples(g)) <= hi
  {
    var r := BorderSamples(g);
    var w, h := |g|, |g[0]|;
    forall k | 0 <= k < |r|
      ensures lo <= r[k] <= hi
    {
      if k < h {
        var j := k;
        assert r[k] == g[0][j] && lo <= g[0][j] <= hi;
      } else if k < 2 * h {
        var j := k - h;
        assert r[k] == g[w - 1][j] && lo <= g[w - 1][j] <= hi;
      } else if k < 2 * h + w {
        var i := k - 2 * h;
        assert r[k] == g[i][0] && lo <= g[i][0] <= hi;
      } else {
        var i := k - 2 * h - w;
        assert r[k] == g[i][h - 1] && lo <= g[i][h - 1] <= hi;
      }
    }
    MeanBounds(r, lo, hi);
  }

  /** On a uniform grid the average surface temperature is that temperature. */
  lemma AverageOfUniform(width: nat, height: nat, t: real)
    requires width > 0 && height > 0
    ensures Mean(BorderSamples(Uniform(width, height, t))) == t
  {
    AverageWithinBorderBounds(Uniform(width, height, t), t, t);
  }
}
