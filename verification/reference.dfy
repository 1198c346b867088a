/** A declarative statement of what subset resolution yields, written dimension by
    dimension instead of as the loops that build it. */
module Reference {
  import opened Basics
  import opened Subsets

  /** Number of leading (non-display) dimensions of a shape with at least two. */
  function Leading(arrayShape: seq<U64>): nat
    requires |arrayShape| >= 2
  {
    |arrayShape| - 2
  }

  /** The first position whose given index is not below the extent of its
      dimension, searching from `from`; `|given|` when every index fits. */
  function FirstOutOfBounds(arrayShape: seq<U64>, given: seq<U64>, from: nat): (j: nat)
    requires |given| <= |arrayShape|
    requires from <= |given|
    ensures from <= j <= |given|
    ensures forall i :: from <= i < j ==> given[i] < arrayShape[i]
    ensures j < |given| ==> given[j] >= arrayShape[j]
    decreases |given| - from
  {
    if from == |given| then from
    else if given[from] >= arrayShape[from] then from
    else FirstOutOfBounds(arrayShape, given, from + 1)
  }

  /** Start offset of every dimension: the given index, else the midpoint of a
      leading dimension, else 0 on a display axis. */
  function SubsetStart(arrayShape: seq<U64>, given: seq<U64>): seq<U64>
    requires |arrayShape| >= 2 && |given| <= Leading(arrayShape)
  {
    seq(|arrayShape|, i requires 0 <= i < |arrayShape| =>
      if i < |given| then given[i]
      else if i < Leading(arrayShape) then arrayShape[i] / 2
      else 0)
  }

  /** Extent of every dimension: 1 on a leading dimension, the full size capped at
      the crop size on a display axis. */
  function SubsetShape(arrayShape: seq<U64>, cropSize: U64): seq<U64>
    requires |arrayShape| >= 2
  {
    seq(|arrayShape|, i requires 0 <= i < |arrayShape| =>
      if i < Leading(arrayShape) then 1 else Min(cropSize, arrayShape[i]))
  }

  /** One slicing line per leading dimension, in dimension order. */
  function SliceEvents(indices: seq<U64>): seq<Event>
  {
    seq(|indices|, i requires 0 <= i < |indices| => Sliced(i, indices[i]))
  }

  /** A cropping line for a display axis whose full size exceeds the crop size. */
  function CropEvent(axis: Axis, fullSize: U64, cropSize: U64): seq<Event>
  {
    if cropSize < fullSize then [Cropped(axis, cropSize)] else []
  }

  /** The cropping lines for Y, then X. */
  function CropEvents(arrayShape: seq<U64>, cropSize: U64): seq<Event>
    requires |arrayShape| >= 2
  {
    CropEvent(Y, arrayShape[Leading(arrayShape)], cropSize)
      + CropEvent(X, arrayShape[Leading(arrayShape) + 1], cropSize)
  }

  /** The outcome of resolving `arrayShape` under `cli`: the checks in the order
      the resolver makes them, then the subset and everything it reported. */
  function Resolve(arrayShape: seq<U64>, cli: Cli): (r: Run)
    ensures r.result.Ok? ==> |r.result.value.start| == |r.result.value.shape| == |arrayShape|
    ensures r.result.Err? && !r.result.error.SliceIndexOutOfBounds? ==> r.events == []
  {
    if |arrayShape| < 2 then Run([], Err(FewerThanTwoDimensions))
    else
      var given := GivenIndices(cli);
      if |given| > Leading(arrayShape) then
        Run([], Err(TooManySliceIndices(Leading(arrayShape), |given|)))
      else
        var j := FirstOutOfBounds(arrayShape, given, 0);
        if j < |given| then
          Run(SliceEvents(given[..j]), Err(SliceIndexOutOfBounds(given[j], j)))
        else
          var start := SubsetStart(arrayShape, given);
          Run(SliceEvents(start[..Leading(arrayShape)]) + CropEvents(arrayShape, cli.cropSize),
              Ok(Subset(start, SubsetShape(arrayShape, cli.cropSize))))
  }
}
