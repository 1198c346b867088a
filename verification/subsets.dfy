/** The entities the subset resolver consumes and produces. */
module Subsets {
  import opened Basics

  /** The already-parsed command-line options the resolver reads: the optional
      indices of the leading (non-display) dimensions, and the largest extent
      shown along each display axis. */
  datatype Cli = Cli(sliceIndices: Option<seq<U64>>, cropSize: U64)

  /** The two trailing (display) axes, in the order they are resolved. */
  datatype Axis = Y | X

  /** One informational line the resolver writes while it works. */
  datatype Event =
    | Sliced(dimension: nat, index: U64)   // "Slicing dimension <dimension> at index <index>"
    | Cropped(axis: Axis, size: U64)       // "Cropping dimension <axis> size <size>"

  /** The rectangular region to read: a start offset and an extent per dimension. */
  datatype Subset = Subset(start: seq<U64>, shape: seq<U64>)

  /** Why resolution was refused. */
  datatype ResolveError =
    | FewerThanTwoDimensions
    | TooManySliceIndices(expected: nat, got: nat)
    | SliceIndexOutOfBounds(index: U64, dimension: nat)

  /** What one resolution produces: the lines written, in order, and the outcome.
      On failure the trace holds whatever was written before the error. */
  datatype Run = Run(events: seq<Event>, result: Result<Subset, ResolveError>)

  /** The explicit indices given, or none at all. */
  function GivenIndices(cli: Cli): seq<U64>
  {
    match cli.sliceIndices
    case Some(indices) => indices
    case None => []
  }
}
