# Inverse distance weighting over a point table

This project models `idw.py`: inverse distance weighting (IDW) that turns a table of sample points into one
gridded surface per attribute field. The model is written in Dafny and the properties are proved about it.

The model has two parts.

The kernel `idw` is `DistanceWeight.Idw` in `kernel.dfy`. It fills a zero-initialised output array, one
target at a time. For each target it:

- computes one weight per sample from the distance;
- keeps the strictly positive weights;
- divides those weights, in place, by their sum;
- writes the weighted sum of the sample values.

The driver `idw_interpolation` is `InterpolationSession.IdwInterpolation` in `session.dfy`. It:

- chooses the attribute fields (module `FieldSelection`, `fields.dfy`);
- reads the `Long` and `Lat` coordinates;
- builds one grid over their extent, using `np.arange` and `np.meshgrid` (module `GridBuilder`, `grid.dfy`);
- runs the kernel once per field on the flattened grid;
- collects the surfaces in a dictionary.

A field whose values are not numbers is reported and skipped. The run then goes on with the next field.

The surrounding definitions are:

- Floats are modelled as Dafny `real`.
- `np.min` and `np.max` are `Numeric.SeqMin` and `Numeric.SeqMax`.
- A table is column names in order, plus the cells of each column (`InterpolationSession.Dataset`). A cell
  either holds a number or a value that `float()` rejects (`FieldSelection.Cell`).

The weight `1 / distance ** power` is modelled as a weighting law: any function of the squared distance.
`DistanceWeight.InverseSquareLaw` names the default `power = 2`, where the weight is the reciprocal of the
squared distance. The kernel properties hold for every law. Some of them also need the law to be positive at
positive distances (`PositiveLaw`) and no sample to lie on the target point (`ApartFrom`).

`radius` and `num_points` are accepted and never read, exactly as in the source.

The code, which this model follows, differs from the documented intent in these places:

- **Radius.** The docstring says that `radius` excludes distant samples, but the code never does this.
- **Number of points.** The docstring describes `num_points` as the grid's resolution per dimension, with a
  default of 100. The signature's default is 10, and the value is never read: the grid comes from the cell
  size alone.
- **Surface shape.** The docstring describes each value of the returned dictionary as a 2-D array. The code
  stores the flat 1-D array that `idw` returns (`InterpolationSession.Surface`, `Output.surfaces`), and only
  the raster write reshapes it to (height, width).
- **One sample, or identical coordinates.** A table with a single point, or with all points on one
  coordinate, spans no extent. `np.arange(min, max, step)` is then empty, so a run whose set-up succeeds has
  an empty grid and empty surfaces (`GridBuilder.SingleSampleEmptyGrid`, `InterpolationSession.SinglePointEmptySurfaces`),
  as far as the model goes: the raster write of each such empty surface is not modelled (see "Left out").
  It does not produce a constant surface. The kernel on its own does return the sample's value at every
  target apart from the sample (`DistanceWeight.SingleSample`).
- **Cell size.** A zero cell size is a fatal error. A negative cell size is not an error: it gives an empty
  grid (`GridBuilder.BuildGrid`), with the same caveat about the raster write.

## Model

| member | source | states |
|---|---|---|
| `DistanceWeight.Idw` | idw.py:102-123 | a fresh output array whose length equals the target count; cell i holds the estimate for target i, the weighted sum of the sample values under the positive-weight mask with the weights divided by their sum; with no samples every cell keeps its zero. The loop invariant states that the cells not yet reached are still zero. |
| `DistanceWeight.SqDist` | idw.py:107 | the squared distance between two points is never negative |
| `DistanceWeight.Estimate` | idw.py:106-121 | the value stored for one target: with some positive weight, the weight sum over the mask is positive and the value is the masked weighted sum divided by it (so the branch that skips the division is never taken); with none, the zero default |
| `DistanceWeight.NoSamplesKeepsZero` | idw.py:103-114 | with no samples the mask is empty and the estimate is the zero default |
| `DistanceWeight.SumWherePositive` | idw.py:113-116 | the masked weight sum is non-negative, and positive once any entry is selected |
| `DistanceWeight.SumWhereNormalised` | idw.py:116-118 | dividing the selected weights by s divides their sum by s |
| `DistanceWeight.DotWhereNormalised` | idw.py:118-121 | dividing the selected weights by s divides the weighted sum by s |
| `DistanceWeight.DotWhereBounds` | idw.py:121 | with non-negative selected weights, the weighted sum lies between lo and hi times the weight sum when every selected value is in [lo, hi] |
| `DistanceWeight.NormalisedWeightsSumToOne` | idw.py:113-118 | when some weight is positive, the weight sum is positive, and the normalised weights are positive on the mask and sum to exactly one |
| `DistanceWeight.EstimateWithin` | idw.py:110-121 | when every sample value is in [lo, hi] and some weight is positive, the estimate is in [lo, hi] (a convex combination); with no positive weight the estimate is 0 |
| `DistanceWeight.EstimateWithinSampleRange` | idw.py:110-121 | when some weight is positive, the estimate lies between the smallest and the largest sample value |
| `DistanceWeight.EstimateOfConstant` | idw.py:110-121 | when every sample value equals c and some weight is positive, the estimate is exactly c |
| `DistanceWeight.AllSamplesWeighted` | idw.py:110-113 | with a positive law and no sample on the target, every sample passes the positive-weight mask |
| `DistanceWeight.SingleSample` | idw.py:107-121 | with one sample off the target and a positive law, the estimate is that sample's value |
| `DistanceWeight.ReciprocalSum` | idw.py:116 | the sum of reciprocals of positive squared distances is positive when there is at least one |
| `DistanceWeight.InverseSquareIsPositive` | idw.py:110 | the power-2 law gives a positive weight at every positive distance |
| `DistanceWeight.ReciprocalSums` | idw.py:116-121 | when every weight is the reciprocal of its positive squared distance and all are selected, the masked sums equal the reciprocal sums |
| `DistanceWeight.InverseSquareWeights` | idw.py:107-113 | under the power-2 law with no sample on the target, each raw weight is 1/d² and is kept by the mask |
| `DistanceWeight.InverseSquareSums` | idw.py:113-121 | under the power-2 law with no sample on the target, the kernel's masked sums are the sums of 1/d² and z/d² |
| `DistanceWeight.EstimateIsInverseSquareMean` | idw.py:105-121 | under the default power 2 with no sample on the target, the estimate is the sum of z/d² divided by the sum of 1/d² over all samples |
| `Numeric.SeqMin` | idw.py:50 | `np.min`: the result is an element and no element is below it |
| `Numeric.SeqMax` | idw.py:50 | `np.max`: the result is an element and no element is above it |
| `GridBuilder.Ceil` | idw.py:53-54 | the least integer not below q: it is at least q and less than q + 1 |
| `GridBuilder.StepWithin` | idw.py:53-54 | value i = start + i * step lies between start (included) and stop (excluded), in the direction of the step, exactly when i < (stop - start) / step |
| `GridBuilder.StepsWithin` | idw.py:53-54 | the same for every index i at once |
| `GridBuilder.ArangeLength` | idw.py:53-54 | the length of `np.arange`: every value before index n lies between start and stop, and value n does not, so n is the first index that reaches stop |
| `GridBuilder.Arange` | idw.py:53-54 | `np.arange`: value i is start + i * step; every value lies between start and stop, and one more step would not. With a positive step that means every value is in [start, stop), there are ceil((stop - start) / step) values when start < stop and none otherwise; a negative step from a start not above the stop gives none |
| `GridBuilder.BuildGrid` | idw.py:50-54 | with a positive cell size, each grid axis runs from the minimum coordinate in cell-size steps, stays strictly below the maximum, and has ceil((max - min) / cell size) values, or none when min equals max; a negative cell size gives a grid with no rows and no columns |
| `GridBuilder.SingleSampleEmptyGrid` | idw.py:50-55 | one sample gives a grid with no rows and no columns, whatever the non-zero cell size |
| `GridBuilder.FlattenLength` | idw.py:66 | flattening rows of width w gives rows × w values |
| `GridBuilder.FlattenAt` | idw.py:66 | row-major flattening: entry r * w + c is cell (r, c) |
| `GridBuilder.FlatLength` | idw.py:66 | both flattened coordinate arrays have width × height entries |
| `GridBuilder.FlatCell` | idw.py:55-66 | the `meshgrid` arrays, flattened: flat index r * width + c of the x array holds xs[c] and of the y array ys[r], for every row r and column c |
| `FieldSelection.Filter` | idw.py:39 | list comprehension: an element is kept exactly when it is in the input and passes the test; the result is no longer than the input |
| `FieldSelection.FilterCounts` | idw.py:39 | a comprehension keeps every occurrence of an element that passes the test and none of one that fails it |
| `FieldSelection.FilterSubsequence` | idw.py:39 | a comprehension keeps the surviving elements in their original order |
| `FieldSelection.FilterTwice` | idw.py:39-43 | filtering by one test and then another equals filtering once by both |
| `FieldSelection.AttributeFields` | idw.py:39-43 | a column is an attribute field exactly when it is a column, is not `Lat`, `Long` or `geometry`, and is not excluded; the fields keep the columns' order; a column named several times appears as often as among the columns when it is kept, and not at all otherwise |
| `FieldSelection.InsertionOrder` | idw.py:67 | dictionary key order: a name is a key exactly when it was assigned |
| `FieldSelection.InsertionOrderSubsequence` | idw.py:67 | the keys are a subsequence of the assigned names (their first-assignment order is `FieldSelection.InsertionOrderByFirstIndex`) |
| `FieldSelection.InsertionOrderDistinct` | idw.py:67 | no key appears twice |
| `FieldSelection.FirstIndex` | idw.py:67 | the position of the first occurrence of a value: it holds the value and no earlier position does |
| `FieldSelection.InsertionOrderByFirstIndex` | idw.py:67 | of two keys, the earlier one was first assigned earlier |
| `FieldSelection.ToFloats` | idw.py:63 | `astype(float)` succeeds exactly when every cell holds a number, and then gives one value per cell, equal to that cell's number |
| `InterpolationSession.FirstFailure` | idw.py:46-54 | the first fatal error: a missing column is `Long` or `Lat` and absent from the table; a non-numeric one is present and does not convert; any fault of `Long` is the one reported; an empty table is reported only with both coordinates numeric, a zero cell size only with rows as well (the error reported when the cell size is the only fault) |
| `InterpolationSession.Prepare` | idw.py:39-55 | the run gets past its set-up exactly when `Long` and `Lat` exist and are numeric, the table has rows, and the cell size is non-zero; otherwise it fails with the first error in source order; on success the fields are the attribute fields, the coordinates are the converted columns, and the grid is built over them |
| `InterpolationSession.Surface` | idw.py:66-67 | a stored surface has width × height values |
| `InterpolationSession.InterpolateField` | idw.py:66 | running the kernel on the flattened grid yields the field's surface |
| `InterpolationSession.SurfaceCell` | idw.py:72-76 | value r * width + c of a surface, row r and column c of the reshaped array, is the estimate at grid point (xs[c], ys[r]) |
| `InterpolationSession.SurfaceWithinFieldRange` | idw.py:66 | with a positive law, the value of a cell whose grid point (xs[c], ys[r]) is off every sample lies between the field's minimum and maximum |
| `InterpolationSession.SurfaceIsInverseSquareMean` | idw.py:66 | under the default power 2, the value of a cell whose grid point (xs[c], ys[r]) is off every sample is the inverse-square-distance weighted mean of the field |
| `InterpolationSession.SinglePointEmptySurfaces` | idw.py:50-66 | a one-row table whose set-up succeeds has an empty grid and empty surfaces |
| `InterpolationSession.AfterFields` | idw.py:60-78 | the loop state after a prefix of the fields: the key order names exactly the dictionary's keys, and no more fields are reported than were taken |
| `InterpolationSession.AcceptLast` | idw.py:60-67 | after a field that converts, the report is unchanged, and the key order gains the field unless it was already seen |
| `InterpolationSession.RejectLast` | idw.py:77-78 | after a field that does not convert, the report gains it and the keys are unchanged |
| `InterpolationSession.AfterFieldsSpec` | idw.py:60-78 | after any prefix of the fields: the reported fields are those that did not convert, in order; the dictionary holds exactly the fields that did convert, each with its surface; the keys come in first-appearance order |
| `InterpolationSession.InterpolateFields` | idw.py:57-79 | the loop over the fields ends in the state the field-by-field definition gives for all fields |
| `InterpolationSession.IdwInterpolation` | idw.py:6-80 | a fatal set-up error yields that error and nothing reported. Otherwise the result is: the two meshgrid arrays; a dictionary whose keys are exactly the converting attribute fields, in first-appearance order, each holding its surface; and the list of non-converting fields, in order. |

## Left out

- Raster and shapefile I/O is not modelled: `gpd.read_file`, the `rasterio` write, `from_origin` and the CRS. The table is a parameter. The `output_folder` default of `os.getcwd()` chooses where rasters go, and as it is never empty the write at idw.py:70-76 always happens; it is left out with them.
- The model assumes the raster write never raises. idw.py:67 stores a surface before the write at lines 70-76, so a `ValueError` or `TypeError` from the write (a 0 x 0 raster from an empty grid, say) would report the field and still leave its surface in the dictionary, and any other exception would abort the whole run. Neither path is modelled: a field is either stored or reported, never both.
- The layout of the written raster is not modelled. `from_origin(xmin, ymax, ...)` at idw.py:75 puts raster row 0 at `ymax`, while row r of `zi.reshape(height, width)` holds ys[r] = ymin + r * cell size, so the written image would be flipped north to south. This is an observation on the code as written, not executed; the model stops at the reshaped array (`InterpolationSession.SurfaceCell`).
- Missing values are not modelled. `astype(float)` turns `None` or NaN cells into NaN without raising (idw.py:46-47, 63), so such a field gets NaN surfaces and is not reported, and NaN coordinates give a NaN extent. `FieldSelection.Cell` has no NaN value: a cell is a number or a value that `float()` rejects.
- The message printed for a skipped field is not modelled. The model keeps the list of skipped fields instead.
- Only `ValueError` from `astype(float)` is modelled, as a cell that `float()` rejects. A `TypeError` from the same line takes the same branch, so it needs no separate model. Parsing cell text into numbers is not modelled: a cell is either a number or a rejected value.
- Floating point is not modelled: rounding, overflow, underflow, and the inf/NaN produced when a grid point coincides with a sample (`1 / 0`). Results that need every weight to be finite and positive require the target, or the cell's grid point, to be apart from every sample (`ApartFrom`); a cell on a sample says nothing about the other cells.
- `DistanceWeight.Idw`: the weight `1 / distance ** power` for a general `power` needs square roots and real powers. Dafny has neither, so the weight is an arbitrary law over the squared distance, and the power-2 default is the stated instance. The kernel's contract holds for any law. Applying a law to a squared distance covers every power, because `distance ** power` is a function of the squared distance.
- `GridBuilder.Ceil` models the length `np.arange` computes exactly. numpy's floating-point rounding of `(stop - start) / step` is not modelled.
- Duplicate column names behave as a Python dict does: the later surface overwrites the earlier and the key keeps its first place (`FieldSelection.InsertionOrder`). pandas' own behaviour when selecting a duplicated column is not modelled, and the model treats a column name as naming one column.
- The other scripts in the repository are not part of this model: kriging, mosaicking, resampling, convolution, point extraction and plot combination.
