/** The subset resolver as the program runs it: a rank guard, a pass over the given
    indices, a pass filling the remaining leading dimensions with midpoints, then
    the two display axes. Printed lines are collected in a trace instead. */
module Resolver {
  import opened Basics
  import opened Subsets
  import opened Reference

  /** Start offsets and slicing lines kept in step: line `i` records start `i`. */
  ghost predicate InLockstep(start: seq<U64>, events: seq<Event>)
  {
    events == SliceEvents(start)
  }

  /** The rank guard: only arrays of at least two dimensions can be shown. */
  function EnsureAtLeast2d(arrayShape: seq<U64>): (r: Result<(), ResolveError>)
    ensures r.Ok? <==> |arrayShape| >= 2
    ensures r.Err? ==> r.error == FewerThanTwoDimensions
  {
    if |arrayShape| < 2 then Err(FewerThanTwoDimensions) else Ok(())
  }

  /** Fixes the start of `dimension` at `value` and reports it. */
  function PushIndex(start: seq<U64>, events: seq<Event>, dimension: nat, value: U64)
    : (r: (seq<U64>, seq<Event>))
    ensures |r.0| == |start| + 1 && r.0[..|start|] == start && r.0[|start|] == value
    ensures |r.1| == |events| + 1 && r.1[..|events|] == events
    ensures r.1[|events|] == Sliced(dimension, value)
    ensures InLockstep(start, events) && dimension == |start| ==> InLockstep(r.0, r.1)
  {
    (start + [value], events + [Sliced(dimension, value)])
  }

  /** Fixes the start of each given leading dimension in turn, refusing the first
      index that is not inside its dimension; the lines for the indices before it
      have been reported by then. */
  method SliceGivenIndices(arrayShape: seq<U64>, indices: seq<U64>)
    returns (start: seq<U64>, events: seq<Event>, failure: Option<ResolveError>)
    requires |indices| <= |arrayShape|
    ensures
      var j := FirstOutOfBounds(arrayShape, indices, 0);
      && events == SliceEvents(indices[..j])
      && (j < |indices| ==> failure == Some(SliceIndexOutOfBounds(indices[j], j)))
      && (j == |indices| ==> failure == None && start == indices)
  {
    start, events, failure := [], [], None;
    var i := 0;
    while i < |indices|
      invariant 0 <= i <= |indices|
      invariant start == indices[..i]
      invariant InLockstep(start, events)
      invariant FirstOutOfBounds(arrayShape, indices, 0) == FirstOutOfBounds(arrayShape, indices, i)
    {
      if indices[i] >= arrayShape[i] {
        failure := Some(SliceIndexOutOfBounds(indices[i], i));
        return;
      }
      var pushed := PushIndex(start, events, i, indices[i]);
      start, events := pushed.0, pushed.1;
      i := i + 1;
    }
  }

  /** Starts every leading dimension not yet fixed at its midpoint, reporting each. */
  method SliceRemainingAtMidpoints(arrayShape: seq<U64>, given: seq<U64>, givenEvents: seq<Event>)
    returns (start: seq<U64>, events: seq<Event>)
    requires |arrayShape| >= 2 && |given| <= Leading(arrayShape)
    requires InLockstep(given, givenEvents)
    ensures |start| == Leading(arrayShape) && start[..|given|] == given
    ensures forall i :: |given| <= i < Leading(arrayShape) ==> start[i] == arrayShape[i] / 2
    ensures InLockstep(start, events)
  {
    start, events := given, givenEvents;
    var i := |start|;
    while i < Leading(arrayShape)
      invariant |given| <= i <= Leading(arrayShape)
      invariant |start| == i && start[..|given|] == given
      invariant forall d :: |given| <= d < i ==> start[d] == arrayShape[d] / 2
      invariant InLockstep(start, events)
    {
      var pushed := PushIndex(start, events, i, arrayShape[i] / 2);
      start, events := pushed.0, pushed.1;
      i := i + 1;
    }
  }

  /** Gives every leading dimension extent 1 and each display axis its full size,
      capped at the crop size, reporting each axis that is capped. */
  method CropDisplayAxes(arrayShape: seq<U64>, cropSize: U64) returns (shape: seq<U64>, events: seq<Event>)
    requires |arrayShape| >= 2
    ensures shape == SubsetShape(arrayShape, cropSize)
    ensures events == CropEvents(arrayShape, cropSize)
  {
    var ndims := |arrayShape|;
    var leading := ndims - 2;
    shape := seq(ndims, _ => 1);
    events := [];
    var axes := [Y, X];
    var t := 0;
    while t < 2
      invariant 0 <= t <= 2
      invariant |shape| == ndims
      invariant forall d :: 0 <= d < leading ==> shape[d] == 1
      invariant forall d :: leading <= d < leading + t ==> shape[d] == Min(cropSize, arrayShape[d])
      invariant forall d :: leading + t <= d < ndims ==> shape[d] == 1
      invariant events
        == (if t >= 1 then CropEvent(Y, arrayShape[leading], cropSize) else [])
        + (if t == 2 then CropEvent(X, arrayShape[leading + 1], cropSize) else [])
    {
      var fullSize := arrayShape[leading + t];
      var extent: U64;
      if cropSize >= fullSize {
        extent := fullSize;
      } else {
        events := events + [Cropped(axes[t], cropSize)];
        extent := cropSize;
      }
      shape := shape[leading + t := extent];
      t := t + 1;
    }
    assert forall d :: 0 <= d < ndims ==> shape[d] == SubsetShape(arrayShape, cropSize)[d];
  }

  /** Resolves the subset of an array of shape `arrayShape` to read under `cli`,
      step by step as the program does, and agrees with the declarative `Resolve`. */
  method StartAndShape(arrayShape: seq<U64>, cli: Cli) returns (run: Run)
    ensures run == Resolve(arrayShape, cli)
  {
    var guard := EnsureAtLeast2d(arrayShape);
    if guard.Err? {
      return Run([], Err(guard.error));
    }
    var leading := |arrayShape| - 2;
    var start: seq<U64> := [];
    var events: seq<Event> := [];
    if cli.sliceIndices.Some? {
      var indices := cli.sliceIndices.value;
      if |indices| > leading {
        return Run([], Err(TooManySliceIndices(leading, |indices|)));
      }
      var failure;
      start, events, failure := SliceGivenIndices(arrayShape, indices);
      if failure.Some? {
        return Run(events, Err(failure.value));
      }
      assert indices[..|indices|] == indices;
    }
    start, events := SliceRemainingAtMidpoints(arrayShape, start, events);
    ghost var sliced := start;
    var t := 0;
    while t < 2
      invariant 0 <= t <= 2
      invariant |start| == leading + t && start[..leading] == sliced
      invariant forall d :: leading <= d < |start| ==> start[d] == 0
    {
      start := start + [0];
      t := t + 1;
    }
    var shape, crops := CropDisplayAxes(arrayShape, cli.cropSize);
    events := events + crops;
    assert start == SubsetStart(arrayShape, GivenIndices(cli));
    return Run(events, Ok(Subset(start, shape)));
  }
}
