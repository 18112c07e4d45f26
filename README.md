# Image-processing IOC: beam analysis, ROI clipping and ratio

This project models the computational core of `image_processing_ioc.py`, an
EPICS IOC that publishes beam measurements taken from detector images. When
a client writes a file path to `ImagePathPrimary` or `ImagePathSecondary`,
the IOC does the following:

1. If the path does not name a file, it does nothing.
2. Otherwise it loads the image array from the file.
3. It clips the array to the configured region of interest (`ROI_rowmin`,
   `ROI_rowmax`, `ROI_colmin`, `ROI_colmax`).
4. It runs `beam_analysis` on the clipped array.
5. It publishes the resulting total counts and centre of mass to the
   `primary:` or `secondary:` group.
6. It recomputes `ratio`, the secondary total divided by the primary total.

`beam_analysis` works in these steps:

1. It averages over the leading axis until two axes remain.
2. It zeroes finite pixels outside `[0, 1e6]`, which are masked or pegged
   Eiger pixels.
3. It thresholds at `max(1, 1e-4 * max)`.
4. It takes the foreground's unweighted and intensity-weighted centroids.
5. It returns the unweighted centroid together with the masked sum over a
   window of half-width `ROI_size`. The window is placed at the weighted
   centroid and clamped to the image.

The modules are:

- `outcomes.dfy` (`Outcomes`): `Option`, `Result` and the ways an update can
  raise instead of publishing (`Failure`).
- `slices.dfy` (`Slices`): Python's `int()` on a float, numpy's step-1 slice
  on one axis (negative bounds count from the end; everything is clamped),
  and the integration window.
- `ndarrays.dfy` (`NdArrays`): N-dimensional arrays with an explicit shape,
  `np.mean(a, axis=0)` and the reduction loop as a function.
- `beam.dfy` (`Beam`): mask, threshold, foreground, centroids, window sum,
  and `beam_analysis` itself as a method with a `while` loop, proved against
  the function `BeamResult`.
- `roi.dfy` (`Roi`): the ROI clipping as the handlers write it
  (`ClipLeading`) and as they evidently intend it (`ClipImage`). See
  Findings below.
- `ioc.dfy` (`Ioc`): the class `ImageProcessingIoc`. It holds the ROI
  settings, the two published readouts and the ratio, and has the two
  putters and `compute_ratio` as methods.

Pixel values are exact `real`s. `regionprops` is specified by what it
computes for a single label: the foreground is every pixel above the
threshold, and `centroid` and `weighted_centroid` are the plain and
intensity-weighted means of the foreground's coordinates.

Three points of the code that the model keeps as written:

- No foreground pixel: line 42 indexes `properties[0]` unconditionally,
  which raises. The model returns `Err(NoForeground)`, and the putter then
  publishes nothing.
- Ratio guard: line 83 demands that both totals are strictly positive, and
  so does `Ioc.Ratio`.
- Saturation ceiling: line 35 uses `1e6`, and so does the model.

Failures the code raises are modelled as `Err` results, never as
preconditions:

- `TooFewAxes`: the loaded array has fewer than two axes, so
  `image.shape[1]` raises.
- `EmptyImage`: the reduced image has no pixel, so `.max()` raises.
- `NoForeground`: no pixel is above the threshold.

A zero-length leading axis makes numpy's mean an all-NaN image. The mask
multiplies each NaN pixel by 0, which leaves it NaN. The maximum is then
NaN, so the threshold `np.maximum(1, NaN)` is NaN too, and no pixel is
above a NaN threshold. That case therefore ends in `NoForeground`, or in
`EmptyImage` when the image has no pixel at all.

## Model

| member | source | states |
|---|---|---|
| Slices.Trunc | image_processing_ioc.py:49-54 | `int()` truncates toward zero: the result is within 1 of `x`, below it for `x >= 0` and above it for `x < 0` |
| Slices.Slice | image_processing_ioc.py:94-97 | a step-1 slice keeps exactly the indices `k` in the axis with `start <= k < stop`, where negative bounds count from the end; the result lies in `[0, len]` |
| Slices.SliceInBounds | image_processing_ioc.py:49-54 | bounds already in `[0, len]` select exactly `[start, stop)`, or nothing when `stop < start` |
| Slices.Window | image_processing_ioc.py:49-54 | the integration window on an axis always lies within `[0, len]` |
| Slices.WindowNoWrap | image_processing_ioc.py:49-54 | for a centre on the image and a non-negative half-width, no window bound wraps around: the window is `[max(int(c-h),0), min(int(c+h),len))`, empty when that is reversed |
| Slices.WindowWidth | image_processing_ioc.py:49-54 | the window spans at most `2*ROI_size` indices |
| Slices.WindowCoversCentre | image_processing_ioc.py:47-56 | with a half-width of at least 1, the window contains the pixel the weighted centroid falls on |
| NdArrays.MeanOf | image_processing_ioc.py:32 | the element-wise mean of same-shaped arrays has that shape |
| NdArrays.MeanOfAt | image_processing_ioc.py:32 | each element of the element-wise mean is the mean of the arrays' elements at that index |
| NdArrays.MeanAxis0 | image_processing_ioc.py:32 | `np.mean(x, axis=0)` is a valid array whose shape is `x`'s without its first axis |
| NdArrays.MeanAxis0At | image_processing_ioc.py:32 | each element of `np.mean(x, axis=0)` is the mean over the leading axis of the elements below it |
| NdArrays.Collapse | image_processing_ioc.py:31-32 | the reduction ends with the last two axes exactly when no earlier axis is empty |
| NdArrays.CollapseStack | image_processing_ioc.py:31-32 | on a non-empty 3-D stack, each pixel of the reduced image is that pixel's mean across the stack |
| NdArrays.SumBounds | image_processing_ioc.py:47-56 | a sum of terms in `[0, hi]` lies between 0 and `n` times `hi` |
| Beam.Mask | image_processing_ioc.py:35-36 | every masked pixel lies in `[0, 1e6]`; a masked pixel equals the raw value exactly when the raw value is valid, and invalid pixels become 0 |
| Beam.MaskIdempotent | image_processing_ioc.py:35-36 | masking a masked image changes nothing |
| Beam.SeqMax | image_processing_ioc.py:38 | the maximum bounds every element and is one of them |
| Beam.ImageMax | image_processing_ioc.py:38 | `max()` of a non-empty image bounds every pixel and is attained by one |
| Beam.Threshold | image_processing_ioc.py:37-39 | the threshold is at least 1 and at least `1e-4` of the maximum, and is one of the two |
| Beam.RowForeground | image_processing_ioc.py:40-41 | the foreground of one row: exactly its pixels above the threshold, with their values, in column order |
| Beam.ForegroundFrom | image_processing_ioc.py:40-41 | the foreground of the rows from `r` on: exactly their pixels above the threshold, in row-major order |
| Beam.Foreground | image_processing_ioc.py:40-41 | the label regionprops sees: a pixel is in the foreground exactly when its masked value is above the threshold; in row-major order |
| Beam.WeightSum | image_processing_ioc.py:43-45 | a non-empty foreground of positive intensities has a positive total weight, so the weighted centroid is defined |
| Beam.Centroid | image_processing_ioc.py:42 | regionprops' `centroid` is the mean foreground position: the number of foreground pixels times the centroid is the sum of their coordinates, on each axis |
| Beam.WeightedCentroid | image_processing_ioc.py:43-45 | regionprops' `weighted_centroid` is the intensity-weighted mean position: the total intensity times the centroid is the intensity-weighted sum of the coordinates, on each axis. The weights are the foreground's masked values, which equal the raw `imageData` values regionprops is given (see `Beam.ForegroundPixelsAreValid`) |
| Beam.SinglePixelCentroids | image_processing_ioc.py:42-45 | a one-pixel foreground has both centroids on that pixel |
| Beam.CoordSumBounds | image_processing_ioc.py:42 | coordinates bounded by `e` sum to between 0 and `n*e` |
| Beam.WeightedCoordSumBounds | image_processing_ioc.py:43-45 | intensity-weighted coordinates bounded by `e` sum to between 0 and the total weight times `e` |
| Beam.CentroidWithin | image_processing_ioc.py:42 | the unweighted centroid lies within `[0, rows-1] x [0, cols-1]` |
| Beam.WeightedCentroidWithin | image_processing_ioc.py:43-45 | the weighted centroid lies within `[0, rows-1] x [0, cols-1]` |
| NdArrays.Sum | image_processing_ioc.py:47 | `np.sum` of non-negative values is non-negative |
| Beam.WindowSum | image_processing_ioc.py:47-56 | `np.sum` over the clamped slice, taken row by row: it is non-negative when every pixel inside the window is |
| Beam.CapacityIsArea | image_processing_ioc.py:35 | the most a block of valid pixels can hold is its area times the ceiling `1e6` |
| Beam.CapacityMonotone | image_processing_ioc.py:35 | a smaller block can hold no more |
| Beam.WindowSumBounds | image_processing_ioc.py:47-56 | the window sum of a masked image lies between 0 and the window's capacity |
| Beam.EmptyWindowSumsToZero | image_processing_ioc.py:47-56 | a window that is empty in either direction contributes 0 |
| Beam.WindowSumLocal | image_processing_ioc.py:47-56 | only the pixels inside the window affect its sum |
| Beam.WindowSumAtMost | image_processing_ioc.py:47-56 | a window at most `side` pixels high and wide sums to at most the capacity of a `side` by `side` block |
| Beam.PlacedWindowAtMost | image_processing_ioc.py:47-56 | a window placed at a non-negative position sums to at most the capacity of a `2*ROI_size` square |
| Beam.ForegroundIffBrighterThanOne | image_processing_ioc.py:37-42 | a non-empty image has a foreground exactly when its brightest valid pixel exceeds 1 |
| Beam.ForegroundPixelsAreValid | image_processing_ioc.py:35-40 | every foreground pixel is a valid pixel above 1 whose intensity is its raw value |
| Beam.AnalyzeImage | image_processing_ioc.py:35-61 | on a 2-D image: `EmptyImage` exactly when it has no pixel, `NoForeground` exactly when it has pixels but no foreground, success exactly otherwise; on success the reported centre is the foreground's unweighted centroid and lies on the image, and the total is non-negative |
| Beam.InvalidPixelsIgnored | image_processing_ioc.py:35-56 | images that agree on their valid pixels give the same result: invalid pixels never contribute |
| Beam.TotalIsWeightedWindow | image_processing_ioc.py:43-56 | an image with a foreground analyses successfully; the reported centre is the foreground's unweighted centroid, while the total is the masked sum over the window placed at the weighted centroid of that non-empty, positive foreground |
| Beam.TotalBound | image_processing_ioc.py:47-56 | with a non-negative `ROI_size`, an image with a foreground analyses successfully with a total of at most `(2*ROI_size)^2 * 1e6` |
| Beam.BeamResult | image_processing_ioc.py:26-61 | `beam_analysis` on an array of two or more axes never fails for lack of axes; on success the centroid lies on the final image and the total is non-negative |
| Beam.BeamResultStep | image_processing_ioc.py:31-32 | one pass of the reduction loop leaves the outcome of `beam_analysis` unchanged |
| Beam.BeamAnalysis | image_processing_ioc.py:26-61 | the loop that averages over axis 0 until two axes remain, followed by the analysis, returns exactly `BeamResult` |
| Roi.RoiRange | image_processing_ioc.py:94-97 | the ROI slice on an axis lies within `[0, len]` |
| Roi.RoiRangeSelects | image_processing_ioc.py:94-97 | the ROI keeps exactly the indices in `[max(min,0), min(max,len))`; a negative upper bound counts from the end |
| Roi.SliceLeading | image_processing_ioc.py:94-97 | slicing the leading axis keeps `cols.hi-cols.lo` sub-arrays, the `j`-th being `a[cols.lo+j]` |
| Roi.Slice2 | image_processing_ioc.py:94-97 | slicing the first two axes yields the shape `[rows, cols] + rest`, with row `i` the sliced row `rows.lo+i` |
| Roi.ClipLast2 | image_processing_ioc.py:94-97 | clipping the last two axes yields the input's leading axes followed by the ROI's rows and columns |
| Roi.ClipLeading | image_processing_ioc.py:94-97 | the clipping as written fails exactly on fewer than two axes, and otherwise shrinks axes 0 and 1 |
| Roi.ClipImage | image_processing_ioc.py:94-97 | the corrected clipping fails exactly on fewer than two axes, and otherwise shrinks the last two axes (the image's rows and columns) |
| Roi.Slice2At | image_processing_ioc.py:94-97 | on a 2-D image, element `[i, j]` of the clip is element `[rows.lo+i, cols.lo+j]` of the image |
| Roi.ClipLast2At | image_processing_ioc.py:94-97 | every element of the clipped array is the loaded array's element at the index shifted by the ROI's lower bounds, so the clip is a sub-rectangle |
| Roi.ClipAgreesOnImages | image_processing_ioc.py:94-97 | on a 2-D image the clipping as written and as intended agree |
| Roi.ClipLeadingDropsRows | image_processing_ioc.py:94-97 | on a one-frame 1065x1030 stack with the default ROI, the clipping as written keeps 1030 rows, while the intended one keeps all 1065 |
| Ioc.Ratio | image_processing_ioc.py:82-84 | when both totals are positive the ratio times the primary total is the secondary total, and the ratio is positive; otherwise it is the previous ratio |
| Ioc.Measure | image_processing_ioc.py:94-98 | clip the last two axes to the ROI, then analyse: fails with `TooFewAxes` exactly when the array has fewer than two axes; on success the total is non-negative and the centre lies within the clipped rows and columns |
| Ioc.MeasureAsWritten | image_processing_ioc.py:94-98 | the handler as written (slice axes 0 and 1, then analyse): fails with `TooFewAxes` exactly when the array has fewer than two axes; on success the total is non-negative |
| Ioc.MeasureAgreesOnImages | image_processing_ioc.py:94-98 | on a 2-D image the handler as written publishes exactly what `Measure` publishes |
| Ioc.ImageProcessingIoc.constructor | image_processing_ioc.py:73-80 | the initial ROI is rows 0..1065, columns 0..1030, half-width 25; the readouts and the ratio start at zero |
| Ioc.ImageProcessingIoc.ComputeRatio | image_processing_ioc.py:82-84 | `compute_ratio` sets the ratio to secondary/primary when both totals are positive and leaves it unchanged otherwise; the ratio stays non-negative |
| Ioc.ImageProcessingIoc.SetConfig | image_processing_ioc.py:73-77 | a client write to the ROI PVs replaces the settings later images are clipped and analysed with; the published values are untouched |
| Ioc.ImageProcessingIoc.Analyse | image_processing_ioc.py:94-98 | clipping and `beam_analysis` of the loaded array return exactly `Measure` of it under the current ROI, with a non-negative total |
| Ioc.ImageProcessingIoc.PublishPrimary | image_processing_ioc.py:99-102 | the primary readout becomes the new one and the ratio is recomputed; nothing else changes |
| Ioc.ImageProcessingIoc.PutImagePathPrimary | image_processing_ioc.py:86-102 | a path that is not a file changes nothing; otherwise a failed analysis changes nothing, and a successful one publishes `Measure` to the primary readout and recomputes the ratio |
| Ioc.ImageProcessingIoc.PublishSecondary | image_processing_ioc.py:117-120 | the secondary readout becomes the new one and the ratio is recomputed; nothing else changes |
| Ioc.ImageProcessingIoc.PutImagePathSecondary | image_processing_ioc.py:104-120 | the same for the secondary readout |

## Left out

- The caproto server machinery: `PVGroup`, `pvproperty`, `SubGroup`, `run`,
  the argument parser and `main` (lines 66-80, 124-143). This is framework
  glue. The published PVs are fields of `Ioc.ImageProcessingIoc`, and the
  PV defaults are its constructor.
- The async scheduling of the putters. Each putter is modelled as one
  atomic method, so interleaving between the primary and secondary putters
  is not modelled.
- `hdf5_get_image` (lines 21-24) and `Path.is_file()`. They are file I/O:
  the loaded array is a parameter of the putters, and the file test is the
  boolean `isFile`. Errors while opening or reading the file are not
  modelled.
- `analysis.py` declares the three published PVs of a readout group and has
  no logic. It is the datatype `Ioc.Readout`.
- Logging calls (lines 58-59, 90, 108).
- IEEE floating point. Pixel values, means, the `1e-4` scaling and the
  centroid divisions are exact reals, and NaN is not a value of the model.
  The all-NaN image that numpy's mean gives for an empty leading axis is
  modelled by its outcome (`NoForeground` or `EmptyImage`), not as an image.
- Non-finite pixels. Multiplying by the 0/1 mask (lines 35-36) leaves a
  NaN or ±inf pixel NaN, not 0. One such pixel anywhere in the reduced image
  makes the maximum and the threshold NaN, and line 42 then raises. The
  model's pixels are finite reals, so it cannot express this.
  `Beam.Mask` and `Beam.InvalidPixelsIgnored` cover finite invalid pixels
  only.
- The internals of `regionprops`. The centroids are specified as the means
  they compute for one label. The model treats the whole binarised image as
  that single label, as the code does when it passes the 0/1 image.
- The handlers pass the property objects `self.ROI_rowmin` … `self.ROI_size`
  themselves, without `.value` (lines 95-96, 98). The model takes their
  integer values, held in `Ioc.Config`.
- Client writes to the `ratio` and `primary:`/`secondary:` PVs. Those PVs
  are writable, but the model has no method for such writes. The class
  invariant `Valid()` (non-negative totals and ratio) relies on that.
- The ROI PVs are modelled as one write of all five values
  (`SetConfig`), not one PV at a time. A client write stores whatever
  value it is given.
- Ioc.Measure: clips the last two axes with `Roi.ClipImage`, where lines
  94-97 slice axes 0 and 1. See Findings. `Ioc.MeasureAsWritten` is the
  handler as written, and `Ioc.MeasureAgreesOnImages` proves the two agree
  on 2-D arrays.
- Ioc.ImageProcessingIoc.Analyse: the same, because it computes
  `Ioc.Measure`.
- Ioc.ImageProcessingIoc.PutImagePathPrimary: uses the corrected clipping
  `Roi.ClipImage` rather than the clipping as written. See Findings.
  `Roi.ClipAgreesOnImages` proves the two agree on 2-D arrays.
- Ioc.ImageProcessingIoc.PutImagePathSecondary: the same.

## Findings

| source | as written | input that shows it | evidently intended | confidence | as-written member | corrected member |
|---|---|---|---|---|---|---|
| image_processing_ioc.py:94-97 (and 112-115) | the putters clip `image[rowmin:rowmax, colmin:colmax]` on the array as loaded, before `beam_analysis` averages the leading axes away; on a 3-D frame stack this clips the frame axis by the row bounds and the rows by the column bounds, and leaves the columns unclipped | a one-frame Eiger 1M stack of shape 1 x 1065 x 1030 with the default ROI 0..1065 x 0..1030: the clip keeps shape 1 x 1030 x 1030, so the image's last 35 rows are lost | the ROI bounds the image's rows and columns, the last two axes, whatever the number of leading axes | not executed; high that the slice is on axes 0 and 1, medium that the files hold 3-D stacks | Roi.ClipLeadingDropsRows | Roi.ClipImage |
