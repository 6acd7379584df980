/**
 * Grid construction in `idw_interpolation` (idw.py): the extent of the sample
 * coordinates, one `np.arange` per axis stepping by the cell size, and the
 * `np.meshgrid` of the two axes, flattened row by row for the kernel.
 */
module GridBuilder {

  import Numeric

  /** The least integer not below q. */
  function Ceil(q: real): (c: int)
    ensures c as real - 1.0 < q <= c as real
  {
    -((-q).Floor)
  }

  /** Value i of an axis that starts at `start` and moves by `step`: start + i * step. */
  function AxisValue(start: real, step: real, i: nat): real
  {
    start + (i as real) * step
  }

  /**
   * v lies on the way from `start` towards `stop` in the direction of `step`:
   * `start` included, `stop` excluded.
   */
  predicate Within(start: real, stop: real, step: real, v: real)
  {
    if step > 0.0 then start <= v < stop else stop < v <= start
  }

  /** Whether value i of the axis lies within, by the sign of i - (stop - start) / step. */
  lemma StepWithin(start: real, stop: real, step: real, i: nat)
    requires step != 0.0
    ensures Within(start, stop, step, AxisValue(start, step, i)) <==> (i as real) < (stop - start) / step
  {
    var q := (stop - start) / step;
    Numeric.QuotientTimes(stop - start, step);
    if step > 0.0 {
      Numeric.ScaleNonNegative(i as real, step);
      if (i as real) < q {
        Numeric.ScaleStrict(i as real, q, step);
      } else {
        Numeric.ScaleAtLeast(q, i as real, step);
      }
    } else {
      Numeric.ScaleAtMostNegative(0.0, i as real, step);
      if (i as real) < q {
        Numeric.ScaleStrictNegative(i as real, q, step);
      } else {
        Numeric.ScaleAtMostNegative(q, i as real, step);
      }
    }
  }

  /** Every value of the axis lies within exactly when its index is below (stop - start) / step. */
  lemma StepsWithin(start: real, stop: real, step: real)
    requires step != 0.0
    ensures forall i: nat :: Within(start, stop, step, AxisValue(start, step, i)) <==> (i as real) < (stop - start) / step
  {
    forall i: nat ensures Within(start, stop, step, AxisValue(start, step, i)) <==> (i as real) < (stop - start) / step {
      StepWithin(start, stop, step, i);
    }
  }

  /**
   * Number of values of `np.arange(start, stop, step)`, ceil((stop - start) / step)
   * or 0 when that is not positive: every value before index n lies between
   * `start` and `stop`, and value n does not, so n is the first index that
   * reaches or passes `stop` (or that starts already past it).
   */
  function ArangeLength(start: real, stop: real, step: real): (n: nat)
    requires step != 0.0
    ensures forall i: nat :: i < n ==> Within(start, stop, step, AxisValue(start, step, i))
    ensures !Within(start, stop, step, AxisValue(start, step, n))
  {
    StepsWithin(start, stop, step);
    var c := Ceil((stop - start) / step);
    if c > 0 then c else 0
  }

  /**
   * `np.arange(start, stop, step)`; numpy rejects a zero step, hence the
   * precondition (the driver reports that case as a fatal error). Value i is
   * start + i * step, every value lies between `start` (included) and `stop`
   * (excluded) and one more step would not. With a positive step that is
   * ceil((stop - start) / step) values when start < stop and none otherwise;
   * a negative step from a start that does not exceed the stop gives none.
   */
  function Arange(start: real, stop: real, step: real): (r: seq<real>)
    requires step != 0.0
    ensures forall i :: 0 <= i < |r| ==> r[i] == AxisValue(start, step, i) && Within(start, stop, step, r[i])
    ensures !Within(start, stop, step, AxisValue(start, step, |r|))
    ensures step > 0.0 ==> forall i :: 0 <= i < |r| ==> start <= r[i] < stop
    ensures step > 0.0 && start < stop ==> |r| == Ceil((stop - start) / step)
    ensures step > 0.0 && stop <= start ==> r == []
    ensures step < 0.0 && start <= stop ==> r == []
  {
    var n := ArangeLength(start, stop, step);
    assert AxisValue(start, step, 0) == start;
    seq(n, i requires 0 <= i => AxisValue(start, step, i))
  }

  /** The grid shared by every field: the x axis and the y axis. */
  datatype Grid = Grid(xs: seq<real>, ys: seq<real>)

  /** `xi.shape[1]`. */
  function Width(g: Grid): nat { |g.xs| }

  /** `xi.shape[0]`. */
  function Height(g: Grid): nat { |g.ys| }

  /**
   * Lines 50-54 of idw.py: the coordinate extent and one `np.arange` per axis.
   * With a positive cell size each axis runs from the minimum coordinate in
   * cell-size steps, stays strictly below the maximum, and has
   * ceil((max - min) / cell size) values, or none when min equals max; a
   * negative cell size gives a grid with no rows and no columns.
   */
  function BuildGrid(x: seq<real>, y: seq<real>, cellSize: real): (g: Grid)
    requires |x| > 0 && |y| > 0 && cellSize != 0.0
    ensures var lo, hi := Numeric.SeqMin(x), Numeric.SeqMax(x);
            cellSize > 0.0 ==>
              && (lo < hi ==> Width(g) == Ceil((hi - lo) / cellSize))
              && (lo == hi ==> Width(g) == 0)
              && (forall i :: 0 <= i < Width(g) ==> g.xs[i] == AxisValue(lo, cellSize, i) && lo <= g.xs[i] < hi)
    ensures var lo, hi := Numeric.SeqMin(y), Numeric.SeqMax(y);
            cellSize > 0.0 ==>
              && (lo < hi ==> Height(g) == Ceil((hi - lo) / cellSize))
              && (lo == hi ==> Height(g) == 0)
              && (forall i :: 0 <= i < Height(g) ==> g.ys[i] == AxisValue(lo, cellSize, i) && lo <= g.ys[i] < hi)
    ensures cellSize < 0.0 ==> Width(g) == 0 && Height(g) == 0
  {
    Grid(Arange(Numeric.SeqMin(x), Numeric.SeqMax(x), cellSize),
         Arange(Numeric.SeqMin(y), Numeric.SeqMax(y), cellSize))
  }

  /** A single sample spans no extent, so its grid has no cells at all. */
  lemma SingleSampleEmptyGrid(x: seq<real>, y: seq<real>, cellSize: real)
    requires |x| == |y| == 1 && cellSize != 0.0
    ensures Width(BuildGrid(x, y, cellSize)) == 0 && Height(BuildGrid(x, y, cellSize)) == 0
  {
    assert Numeric.SeqMin(x) == x[0] == Numeric.SeqMax(x);
    assert Numeric.SeqMin(y) == y[0] == Numeric.SeqMax(y);
  }

  /** `xi` of `np.meshgrid(xs, ys)`: Height rows, each a copy of the x axis. */
  function MeshX(g: Grid): seq<seq<real>>
  {
    seq(|g.ys|, _ => g.xs)
  }

  /** `yi` of `np.meshgrid(xs, ys)`: row r repeats ys[r] Width times. */
  function MeshY(g: Grid): seq<seq<real>>
  {
    seq(|g.ys|, r requires 0 <= r < |g.ys| => seq(|g.xs|, _ => g.ys[r]))
  }

  /** `ndarray.flatten()` of a 2-D array: its rows concatenated in order. */
  function Flatten(rows: seq<seq<real>>): seq<real>
    decreases |rows|
  {
    if |rows| == 0 then [] else Flatten(rows[..|rows| - 1]) + rows[|rows| - 1]
  }

  /** Rows of width w flatten to |rows| * w values. */
  lemma {:induction false} FlattenLength(rows: seq<seq<real>>, w: nat)
    requires forall i :: 0 <= i < |rows| ==> |rows[i]| == w
    ensures |Flatten(rows)| == |rows| * w
  {
    if |rows| > 0 {
      var k := |rows| - 1;
      FlattenLength(rows[..k], w);
      Numeric.MultiplySuccessor(k, w);
    }
  }

  /** Row-major order: cell (r, c) of rows of width w is element r * w + c of the flat array. */
  lemma {:induction false} FlattenAt(rows: seq<seq<real>>, w: nat, r: nat, c: nat)
    requires forall i :: 0 <= i < |rows| ==> |rows[i]| == w
    requires r < |rows| && c < w
    ensures r * w + c < |Flatten(rows)| && Flatten(rows)[r * w + c] == rows[r][c]
  {
    var k := |rows| - 1;
    FlattenLength(rows, w);
    FlattenLength(rows[..k], w);
    if r < k {
      FlattenAt(rows[..k], w, r, c);
    } else {
      assert r == k;
    }
  }

  /** The flattened x coordinates handed to the kernel (`xi.flatten()`). */
  function FlatX(g: Grid): seq<real>
  {
    Flatten(MeshX(g))
  }

  /** The flattened y coordinates handed to the kernel (`yi.flatten()`). */
  function FlatY(g: Grid): seq<real>
  {
    Flatten(MeshY(g))
  }

  /** Both flattened coordinate arrays have one entry per grid cell. */
  lemma FlatLength(g: Grid)
    ensures |FlatX(g)| == Width(g) * Height(g) && |FlatY(g)| == Width(g) * Height(g)
  {
    FlattenLength(MeshX(g), Width(g));
    FlattenLength(MeshY(g), Width(g));
    Numeric.MultiplyCommutes(Height(g), Width(g));
  }

  /** Flat index r * Width + c holds the coordinates (xs[c], ys[r]) of cell (r, c). */
  lemma FlatCell(g: Grid, r: nat, c: nat)
    requires r < Height(g) && c < Width(g)
    ensures |FlatX(g)| == |FlatY(g)| == Width(g) * Height(g)
    ensures r * Width(g) + c < Width(g) * Height(g)
    ensures FlatX(g)[r * Width(g) + c] == g.xs[c]
    ensures FlatY(g)[r * Width(g) + c] == g.ys[r]
  {
    FlatLength(g);
    FlattenAt(MeshX(g), Width(g), r, c);
    FlattenAt(MeshY(g), Width(g), r, c);
  }
}
