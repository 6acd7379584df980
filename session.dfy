/**
 * `idw_interpolation` (idw.py): reads the coordinates of a point table,
 * builds the grid over their extent, and interpolates every attribute field
 * onto it with the kernel, skipping (and reporting) the fields whose values
 * are not numbers.
 */
module InterpolationSession {

  import Numeric
  import DistanceWeight
  import GridBuilder
  import FieldSelection

  type Cell = FieldSelection.Cell

  /** A point table: its column names in order and the cells of each column. */
  datatype Dataset = Dataset(columns: seq<string>, table: map<string, seq<Cell>>, rows: nat)

  /** The table holds the cells of exactly the listed columns, one cell per row in each. */
  predicate WellFormed(ds: Dataset)
  {
    (forall c :: c in ds.columns ==> c in ds.table)
    && (forall c :: c in ds.table ==> c in ds.columns)
    && forall c :: c in ds.table ==> |ds.table[c]| == ds.rows
  }

  /** The errors that abort the whole run, before any field is interpolated. */
  datatype Failure =
    | MissingColumn(name: string)     // `gdf['Long']` or `gdf['Lat']` raises KeyError
    | NonNumericColumn(name: string)  // `.astype(float)` on a coordinate column raises ValueError
    | NoSamples                       // `np.min` of an empty array raises ValueError
    | ZeroCellSize                    // `np.arange` with a zero step raises

  datatype Result<T> = Failure(error: Failure) | Success(value: T)

  /** What the run has established before its loop over the fields. */
  datatype Prepared = Prepared(fields: seq<string>, x: seq<real>, y: seq<real>, grid: GridBuilder.Grid)

  /** A numeric column's values. */
  predicate Converts(ds: Dataset, c: string)
  {
    c in ds.table && FieldSelection.ToFloats(ds.table[c]).Some?
  }

  /**
   * The fatal error the source meets first, in the order in which it reads the
   * table: a missing column is one of the coordinate columns and absent, a
   * non-numeric one is present and does not convert, and a fault of `Long`
   * is met before anything about `Lat`; an empty table is only reached with
   * both coordinate columns numeric.
   */
  function FirstFailure(ds: Dataset): (f: Failure)
    ensures f.MissingColumn? ==> (f.name == "Long" || f.name == "Lat") && f.name !in ds.table
    ensures f.NonNumericColumn? ==> (f.name == "Long" || f.name == "Lat") && f.name in ds.table && !Converts(ds, f.name)
    ensures !Converts(ds, "Long") ==> (f.MissingColumn? || f.NonNumericColumn?) && f.name == "Long"
    ensures f == NoSamples ==> Converts(ds, "Long") && Converts(ds, "Lat") && ds.rows == 0
    ensures f == ZeroCellSize ==> Converts(ds, "Long") && Converts(ds, "Lat") && ds.rows > 0
  {
    if "Long" !in ds.table then MissingColumn("Long")
    else if !Converts(ds, "Long") then NonNumericColumn("Long")
    else if "Lat" !in ds.table then MissingColumn("Lat")
    else if !Converts(ds, "Lat") then NonNumericColumn("Lat")
    else if ds.rows == 0 then NoSamples
    else ZeroCellSize
  }

  /** Lines 39-55 of idw.py: the attribute fields, the coordinates and the grid, or the first fatal error. */
  function Prepare(ds: Dataset, cellSize: real, exclude: seq<string>): (p: Result<Prepared>)
    requires WellFormed(ds)
    ensures p.Success? <==> Converts(ds, "Long") && Converts(ds, "Lat") && ds.rows > 0 && cellSize != 0.0
    ensures p.Failure? ==> p.error == FirstFailure(ds)
    ensures p.Success? ==>
              && p.value.fields == FieldSelection.AttributeFields(ds.columns, exclude)
              && |p.value.x| == |p.value.y| == ds.rows
              && (forall j :: 0 <= j < ds.rows ==>
                    ds.table["Long"][j] == FieldSelection.Number(p.value.x[j])
                    && ds.table["Lat"][j] == FieldSelection.Number(p.value.y[j]))
              && p.value.grid == GridBuilder.BuildGrid(p.value.x, p.value.y, cellSize)
  {
    if "Long" !in ds.table then Failure(MissingColumn("Long"))
    else
      match FieldSelection.ToFloats(ds.table["Long"])
      case None => Failure(NonNumericColumn("Long"))
      case Some(x) =>
        if "Lat" !in ds.table then Failure(MissingColumn("Lat"))
        else
          match FieldSelection.ToFloats(ds.table["Lat"])
          case None => Failure(NonNumericColumn("Lat"))
          case Some(y) =>
            if |x| == 0 then Failure(NoSamples)
            else if cellSize == 0.0 then Failure(ZeroCellSize)
            else
              Success(Prepared(FieldSelection.AttributeFields(ds.columns, exclude), x, y,
                               GridBuilder.BuildGrid(x, y, cellSize)))
  }

  /** The field values the loop passes to the kernel. */
  function FieldValues(ds: Dataset, c: string): (z: seq<real>)
    requires Converts(ds, c)
  {
    FieldSelection.ToFloats(ds.table[c]).value
  }

  /** The fields that the loop reports instead of interpolating. */
  function Rejected(ds: Dataset): string -> bool
  {
    c => !Converts(ds, c)
  }

  /** The fields that the loop interpolates. */
  function Accepted(ds: Dataset): string -> bool
  {
    c => Converts(ds, c)
  }

  /** The flattened surface of one field: the kernel's estimate at every grid cell, in row-major order. */
  function Surface(law: DistanceWeight.Law, p: Prepared, z: seq<real>): (zi: seq<real>)
    requires |p.x| == |p.y| == |z|
    ensures |zi| == GridBuilder.Width(p.grid) * GridBuilder.Height(p.grid)
  {
    GridBuilder.FlatLength(p.grid);
    var gx, gy := GridBuilder.FlatX(p.grid), GridBuilder.FlatY(p.grid);
    seq(|gx|, k requires 0 <= k < |gx| => DistanceWeight.Estimate(law, p.x, p.y, z, gx[k], gy[k]))
  }

  /** Line 66 of idw.py: the kernel run on the flattened grid for one field. */
  method InterpolateField(law: DistanceWeight.Law, p: Prepared, z: seq<real>, radius: real)
    returns (zi: seq<real>)
    requires |p.x| == |p.y| == |z|
    ensures zi == Surface(law, p, z)
  {
    var gx, gy := GridBuilder.FlatX(p.grid), GridBuilder.FlatY(p.grid);
    GridBuilder.FlatLength(p.grid);
    var values := DistanceWeight.Idw(p.x, p.y, z, gx, gy, law, radius);
    zi := values[..];
  }

  /**
   * Line 76 of idw.py reshapes the flat surface to (height, width): row r,
   * column c of the reshaped array is the estimate at grid point (xs[c], ys[r]).
   */
  lemma SurfaceCell(law: DistanceWeight.Law, p: Prepared, z: seq<real>, r: nat, c: nat)
    requires |p.x| == |p.y| == |z|
    requires r < GridBuilder.Height(p.grid) && c < GridBuilder.Width(p.grid)
    ensures var w := GridBuilder.Width(p.grid);
            r * w + c < |Surface(law, p, z)|
            && Surface(law, p, z)[r * w + c] == DistanceWeight.Estimate(law, p.x, p.y, z, p.grid.xs[c], p.grid.ys[r])
  {
    GridBuilder.FlatCell(p.grid, r, c);
  }

  /**
   * With a weighting law that is positive at every positive distance, a cell
   * whose grid point lies on no sample has a value between the smallest and the
   * largest value of the field, whatever the other cells do.
   */
  lemma SurfaceWithinFieldRange(law: DistanceWeight.Law, p: Prepared, z: seq<real>, r: nat, c: nat)
    requires |p.x| == |p.y| == |z| > 0
    requires DistanceWeight.PositiveLaw(law)
    requires r < GridBuilder.Height(p.grid) && c < GridBuilder.Width(p.grid)
    requires DistanceWeight.ApartFrom(p.x, p.y, p.grid.xs[c], p.grid.ys[r])
    ensures var k := r * GridBuilder.Width(p.grid) + c;
            k < |Surface(law, p, z)|
            && Numeric.SeqMin(z) <= Surface(law, p, z)[k] <= Numeric.SeqMax(z)
  {
    SurfaceCell(law, p, z, r, c);
    var tx, ty := p.grid.xs[c], p.grid.ys[r];
    DistanceWeight.AllSamplesWeighted(law, p.x, p.y, tx, ty);
    DistanceWeight.EstimateWithinSampleRange(law, p.x, p.y, z, tx, ty);
  }

  /**
   * With the default `power = 2`, a cell whose grid point lies on no sample
   * holds the inverse-square-distance weighted mean of the field.
   */
  lemma SurfaceIsInverseSquareMean(law: DistanceWeight.Law, p: Prepared, z: seq<real>, r: nat, c: nat)
    requires |p.x| == |p.y| == |z| > 0
    requires DistanceWeight.InverseSquareLaw(law)
    requires r < GridBuilder.Height(p.grid) && c < GridBuilder.Width(p.grid)
    requires DistanceWeight.ApartFrom(p.x, p.y, p.grid.xs[c], p.grid.ys[r])
    ensures var k := r * GridBuilder.Width(p.grid) + c;
            k < |Surface(law, p, z)|
            && Surface(law, p, z)[k] == DistanceWeight.InverseSquareMean(p.x, p.y, z, p.grid.xs[c], p.grid.ys[r])
  {
    SurfaceCell(law, p, z, r, c);
    DistanceWeight.EstimateIsInverseSquareMean(law, p.x, p.y, z, p.grid.xs[c], p.grid.ys[r]);
  }

  /**
   * A table with a single point spans no extent: once its set-up succeeds, its
   * grid, and so every surface, is empty.
   */
  lemma SinglePointEmptySurfaces(ds: Dataset, law: DistanceWeight.Law, cellSize: real, exclude: seq<string>,
                                 z: seq<real>)
    requires WellFormed(ds) && ds.rows == 1 && Prepare(ds, cellSize, exclude).Success?
    requires |z| == 1
    ensures var p := Prepare(ds, cellSize, exclude).value;
            GridBuilder.Width(p.grid) == 0 && GridBuilder.Height(p.grid) == 0
            && Surface(law, p, z) == []
  {
    var p := Prepare(ds, cellSize, exclude).value;
    GridBuilder.SingleSampleEmptyGrid(p.x, p.y, cellSize);
  }

  /** What the run returns: the two meshgrid arrays and one flattened surface per interpolated field. */
  datatype Output = Output(xi: seq<seq<real>>, yi: seq<seq<real>>, surfaces: map<string, seq<real>>, keys: seq<string>)

  /** Every stored surface is the surface of its field's values. */
  predicate SurfacesOf(ds: Dataset, law: DistanceWeight.Law, p: Prepared, surfaces: map<string, seq<real>>)
    requires |p.x| == |p.y|
  {
    forall c :: c in surfaces ==>
      Converts(ds, c) && |FieldValues(ds, c)| == |p.x| && surfaces[c] == Surface(law, p, FieldValues(ds, c))
  }

  /** The state of the loop over the fields: the result dictionary, the order of its keys, and the fields reported. */
  datatype Progress = Progress(surfaces: map<string, seq<real>>, keys: seq<string>, reported: seq<string>)

  /**
   * Lines 60-78 of idw.py: the state after the fields `done`, taken in order.
   * A field that converts has its surface stored under its name (a key keeps
   * its first place in the dictionary's order); one that does not is reported
   * and changes nothing else.
   */
  function AfterFields(ds: Dataset, law: DistanceWeight.Law, p: Prepared, done: seq<string>): (st: Progress)
    requires WellFormed(ds) && |p.x| == |p.y| == ds.rows
    ensures forall c :: c in st.keys <==> c in st.surfaces
    ensures |st.reported| <= |done|
    decreases |done|
  {
    if |done| == 0 then Progress(map[], [], [])
    else
      var before := AfterFields(ds, law, p, done[..|done| - 1]);
      var c := done[|done| - 1];
      if Converts(ds, c) then
        Progress(before.surfaces[c := Surface(law, p, FieldValues(ds, c))],
                 if c in before.surfaces then before.keys else before.keys + [c],
                 before.reported)
      else
        Progress(before.surfaces, before.keys, before.reported + [c])
  }

  /** Past a field that converts: it is not reported, and it joins the key order unless already there. */
  lemma AcceptLast(ds: Dataset, done: seq<string>, keys: seq<string>)
    requires |done| > 0 && Converts(ds, done[|done| - 1])
    requires keys == FieldSelection.InsertionOrder(FieldSelection.Filter(done[..|done| - 1], Accepted(ds)))
    ensures var front, c := done[..|done| - 1], done[|done| - 1];
            && FieldSelection.Filter(done, Rejected(ds)) == FieldSelection.Filter(front, Rejected(ds))
            && FieldSelection.InsertionOrder(FieldSelection.Filter(done, Accepted(ds)))
               == (if c in front then keys else keys + [c])
            && forall v :: v in done <==> v in front || v == c
  {
    assert done == done[..|done| - 1] + [done[|done| - 1]];
  }

  /** Past a field that does not convert: it is reported, and the key order stays. */
  lemma RejectLast(ds: Dataset, done: seq<string>)
    requires |done| > 0 && !Converts(ds, done[|done| - 1])
    ensures var front, c := done[..|done| - 1], done[|done| - 1];
            && FieldSelection.Filter(done, Rejected(ds)) == FieldSelection.Filter(front, Rejected(ds)) + [c]
            && FieldSelection.Filter(done, Accepted(ds)) == FieldSelection.Filter(front, Accepted(ds))
            && forall v :: v in done <==> v in front || v == c
  {
    assert done == done[..|done| - 1] + [done[|done| - 1]];
  }

  /**
   * What the loop promises: the fields that do not convert are reported in field
   * order; the dictionary holds exactly the fields that convert, each with its
   * surface; and its keys come in the order of the fields' first appearance.
   */
  lemma {:induction false} AfterFieldsSpec(ds: Dataset, law: DistanceWeight.Law, p: Prepared, done: seq<string>)
    requires WellFormed(ds) && |p.x| == |p.y| == ds.rows
    ensures var st := AfterFields(ds, law, p, done);
            && st.reported == FieldSelection.Filter(done, Rejected(ds))
            && (forall c :: c in st.surfaces <==> c in done && Converts(ds, c))
            && st.keys == FieldSelection.InsertionOrder(FieldSelection.Filter(done, Accepted(ds)))
            && SurfacesOf(ds, law, p, st.surfaces)
    decreases |done|
  {
    if |done| > 0 {
      var front, c := done[..|done| - 1], done[|done| - 1];
      AfterFieldsSpec(ds, law, p, front);
      var before := AfterFields(ds, law, p, front);
      if Converts(ds, c) {
        AcceptLast(ds, done, before.keys);
      } else {
        RejectLast(ds, done);
      }
    }
  }

  /**
   * Lines 57-79 of idw.py: the loop over the attribute fields, each one
   * converted and interpolated or reported; its final state is that of
   * `AfterFields` over all of them.
   */
  method InterpolateFields(ds: Dataset, law: DistanceWeight.Law, p: Prepared, radius: real)
    returns (surfaces: map<string, seq<real>>, keys: seq<string>, reported: seq<string>)
    requires WellFormed(ds) && |p.x| == |p.y| == ds.rows
    requires forall c :: c in p.fields ==> c in ds.table
    ensures Progress(surfaces, keys, reported) == AfterFields(ds, law, p, p.fields)
  {
    surfaces := map[];
    keys := [];
    reported := [];
    var i := 0;
    while i < |p.fields|
      invariant 0 <= i <= |p.fields|
      invariant Progress(surfaces, keys, reported) == AfterFields(ds, law, p, p.fields[..i])
    {
      var c := p.fields[i];
      assert p.fields[..i + 1][..i] == p.fields[..i];
      match FieldSelection.ToFloats(ds.table[c]) {
        case None =>
          reported := reported + [c];
        case Some(z) =>
          var zi := InterpolateField(law, p, z, radius);
          if c !in surfaces {
            keys := keys + [c];
          }
          surfaces := surfaces[c := zi];
      }
      i := i + 1;
    }
    assert p.fields[..i] == p.fields;
  }

  /**
   * `idw_interpolation`: a fatal error aborts before any field is looked at;
   * otherwise the result holds the meshgrid arrays and the surfaces of the
   * loop over the attribute fields. `radius` and `numPoints` are accepted and,
   * as in the source, never used.
   */
  method IdwInterpolation(ds: Dataset, law: DistanceWeight.Law, radius: real, numPoints: int,
                          cellSize: real, exclude: seq<string>)
    returns (r: Result<Output>, reported: seq<string>)
    requires WellFormed(ds)
    ensures Prepare(ds, cellSize, exclude).Failure? ==>
              r == Failure(FirstFailure(ds)) && reported == []
    ensures Prepare(ds, cellSize, exclude).Success? ==>
              var p := Prepare(ds, cellSize, exclude).value;
              && r.Success?
              && r.value.xi == GridBuilder.MeshX(p.grid)
              && r.value.yi == GridBuilder.MeshY(p.grid)
              && reported == FieldSelection.Filter(p.fields, Rejected(ds))
              && (forall c :: c in r.value.surfaces <==> c in p.fields && Converts(ds, c))
              && r.value.keys == FieldSelection.InsertionOrder(FieldSelection.Filter(p.fields, Accepted(ds)))
              && (forall c :: c in r.value.surfaces ==>
                    Converts(ds, c) && |FieldValues(ds, c)| == |p.x| && r.value.surfaces[c] == Surface(law, p, FieldValues(ds, c)))
  {
    var prepared := Prepare(ds, cellSize, exclude);
    if prepared.Failure? {
      return Failure(prepared.error), [];
    }
    var p := prepared.value;
    var surfaces, keys;
    surfaces, keys, reported := InterpolateFields(ds, law, p, radius);
    AfterFieldsSpec(ds, law, p, p.fields);
    r := Success(Output(GridBuilder.MeshX(p.grid), GridBuilder.MeshY(p.grid), surfaces, keys));
  }
}
