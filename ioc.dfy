/**
 * The IOC's published state and its image-path handlers: load, clip to the
 * ROI, analyse, publish the readout and recompute the secondary/primary ratio.
 */
module Ioc {
  import opened Outcomes
  import opened NdArrays
  import opened Beam
  import opened Roi

  /** The three values an Analysis group publishes. */
  datatype Readout = Readout(totalCounts: real, centerOfMassRow: real, centerOfMassCol: real)

  /** The ROI settings: row and column bounds, and the half-width of the integration window. */
  datatype Config = Config(rowMin: int, rowMax: int, colMin: int, colMax: int, roiSize: int)

  /** How a put to an image path ended. */
  datatype PutStatus =
    | Skipped            // the path is not a file: warn and return
    | Raised(reason: Failure)  // clipping or beam_analysis raised before anything was written
    | Published          // the readout was written and the ratio recomputed

  /** compute_ratio: the ratio after recomputation, given both totals and the ratio before. */
  function Ratio(primary: real, secondary: real, previous: real): (r: real)
    ensures primary > 0.0 && secondary > 0.0 ==> r * primary == secondary && r > 0.0
    ensures !(primary > 0.0 && secondary > 0.0) ==> r == previous
  {
    if primary > 0.0 && secondary > 0.0 then secondary / primary else previous
  }

  /** What a handler publishes for the array a file holds: clip, analyse, read out. */
  function Measure(image: NdArray, config: Config): (r: Result<Readout, Failure>)
    requires image.Valid()
    ensures r.Err? ==> (r.error == TooFewAxes <==> |image.shape| < 2)
    ensures r.Ok? ==> |image.shape| >= 2 && 0.0 <= r.value.totalCounts
    ensures r.Ok? ==>
              var rows, cols := RowRange(image, config.rowMin, config.rowMax), ColRange(image, config.colMin, config.colMax);
              && 0.0 <= r.value.centerOfMassRow <= (rows.hi - rows.lo) as real - 1.0
              && 0.0 <= r.value.centerOfMassCol <= (cols.hi - cols.lo) as real - 1.0
  {
    match ClipImage(image, config.rowMin, config.rowMax, config.colMin, config.colMax)
    case Err(e) => Err(e)
    case Ok(clipped) =>
      match BeamResult(clipped, config.roiSize)
      case Err(e) => Err(e)
      case Ok(a) => Ok(Readout(a.total, a.centre.row, a.centre.col))
  }

  /**
   * The handler as written: slice axes 0 and 1 of the loaded array, then run
   * beam_analysis. On a two-axis image it is `Measure`.
   */
  function MeasureAsWritten(image: NdArray, config: Config): (r: Result<Readout, Failure>)
    requires image.Valid()
    ensures r.Err? ==> (r.error == TooFewAxes <==> |image.shape| < 2)
    ensures r.Ok? ==> |image.shape| >= 2 && 0.0 <= r.value.totalCounts
  {
    match ClipLeading(image, config.rowMin, config.rowMax, config.colMin, config.colMax)
    case Err(e) => Err(e)
    case Ok(clipped) =>
      match BeamResult(clipped, config.roiSize)
      case Err(e) => Err(e)
      case Ok(a) => Ok(Readout(a.total, a.centre.row, a.centre.col))
  }

  /** On a two-axis image the handler as written and the corrected one publish the same. */
  lemma MeasureAgreesOnImages(image: NdArray, config: Config)
    requires image.Valid() && |image.shape| == 2
    ensures MeasureAsWritten(image, config) == Measure(image, config)
  {
    ClipAgreesOnImages(image, config.rowMin, config.rowMax, config.colMin, config.colMax);
  }

  /** The image-processing IOC: ROI settings, the two published readouts and their ratio. */
  class ImageProcessingIoc {
    var config: Config
    var primary: Readout
    var secondary: Readout
    var ratio: real

    /** Published totals and the ratio are never negative. */
    predicate Valid()
      reads this
    {
      0.0 <= primary.totalCounts && 0.0 <= secondary.totalCounts && 0.0 <= ratio
    }

    /** The PVs' initial values: an Eiger 1M frame as ROI, a half-width of 25, everything else zero. */
    constructor ()
      ensures Valid()
      ensures config == Config(0, 1065, 0, 1030, 25)
      ensures primary == Readout(0.0, 0.0, 0.0) && secondary == Readout(0.0, 0.0, 0.0) && ratio == 0.0
    {
      config := Config(0, 1065, 0, 1030, 25);
      primary, secondary := Readout(0.0, 0.0, 0.0), Readout(0.0, 0.0, 0.0);
      ratio := 0.0;
    }

    /** compute_ratio: write secondary/primary only when both totals are positive. */
    method ComputeRatio()
      requires Valid()
      modifies this`ratio
      ensures Valid()
      ensures ratio == Ratio(primary.totalCounts, secondary.totalCounts, old(ratio))
    {
      if primary.totalCounts > 0.0 && secondary.totalCounts > 0.0 {
        ratio := secondary.totalCounts / primary.totalCounts;
      }
    }

    /** A client write to the ROI PVs (ROI_rowmin ... ROI_size): the new settings apply to later images. */
    method SetConfig(c: Config)
      requires Valid()
      modifies this`config
      ensures Valid()
      ensures config == c
    {
      config := c;
    }

    /** Clip the loaded array to the ROI and run beam_analysis on it. */
    method Analyse(image: NdArray) returns (r: Result<Readout, Failure>)
      requires image.Valid()
      ensures r == Measure(image, config)
      ensures r.Ok? ==> 0.0 <= r.value.totalCounts
    {
      var clipped := ClipImage(image, config.rowMin, config.rowMax, config.colMin, config.colMax);
      if clipped.Err? {
        return Err(clipped.error);
      }
      var a := BeamAnalysis(clipped.value, config.roiSize);
      if a.Err? {
        return Err(a.error);
      }
      r := Ok(Readout(a.value.total, a.value.centre.row, a.value.centre.col));
    }

    /** Write a readout to the primary group, then recompute the ratio. */
    method PublishPrimary(readout: Readout)
      requires Valid() && 0.0 <= readout.totalCounts
      modifies this`primary, this`ratio
      ensures Valid()
      ensures primary == readout
      ensures ratio == Ratio(primary.totalCounts, secondary.totalCounts, old(ratio))
    {
      primary := readout;
      ComputeRatio();
    }

    /**
     * The ImagePathPrimary putter. `isFile` is whether the path names a file;
     * `image` is the array the file holds at `entry/data/data`.
     */
    method PutImagePathPrimary(isFile: bool, image: NdArray) returns (status: PutStatus)
      requires Valid() && image.Valid()
      modifies this`primary, this`ratio
      ensures Valid()
      ensures !isFile ==> status == Skipped
      ensures isFile ==> status == StatusOf(Measure(image, old(config)))
      ensures status == Published ==>
                && primary == Measure(image, old(config)).value
                && ratio == Ratio(primary.totalCounts, secondary.totalCounts, old(ratio))
      ensures status != Published ==> primary == old(primary) && ratio == old(ratio)
    {
      if !isFile {
        return Skipped;
      }
      var r := Analyse(image);
      status := StatusOf(r);
      if r.Ok? {
        PublishPrimary(r.value);
      }
    }

    /** Write a readout to the secondary group, then recompute the ratio. */
    method PublishSecondary(readout: Readout)
      requires Valid() && 0.0 <= readout.totalCounts
      modifies this`secondary, this`ratio
      ensures Valid()
      ensures secondary == readout
      ensures ratio == Ratio(primary.totalCounts, secondary.totalCounts, old(ratio))
    {
      secondary := readout;
      ComputeRatio();
    }

    /** The ImagePathSecondary putter: the same, publishing to the secondary readout. */
    method PutImagePathSecondary(isFile: bool, image: NdArray) returns (status: PutStatus)
      requires Valid() && image.Valid()
      modifies this`secondary, this`ratio
      ensures Valid()
      ensures !isFile ==> status == Skipped
      ensures isFile ==> status == StatusOf(Measure(image, old(config)))
      ensures status == Published ==>
                && secondary == Measure(image, old(config)).value
                && ratio == Ratio(primary.totalCounts, secondary.totalCounts, old(ratio))
      ensures status != Published ==> secondary == old(secondary) && ratio == old(ratio)
    {
      if !isFile {
        return Skipped;
      }
      var r := Analyse(image);
      status := StatusOf(r);
      if r.Ok? {
        PublishSecondary(r.value);
      }
    }
  }

  /** The status a put to an existing file ends with. */
  function StatusOf(r: Result<Readout, Failure>): PutStatus
  {
    if r.Ok? then Published else Raised(r.error)
  }
}
