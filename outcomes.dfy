/** Failure-carrying results shared by the analysis and the IOC handlers. */
module Outcomes {

  datatype Option<T> = None | Some(value: T)

  datatype Result<T, E> = Ok(value: T) | Err(error: E)

  /** The ways an image update can end in an exception instead of published values. */
  datatype Failure =
    | TooFewAxes     // the loaded array has fewer than two axes: `image.shape[1]` raises
    | EmptyImage     // the 2-D image has no pixel: `.max()` of an empty array raises
    | NoForeground   // no pixel is above the threshold: `properties[0]` raises
}
