/** What subset resolution promises its caller: when and how it fails, the shape
    of a successful result, and exactly which lines it reports. Stated about
    `Reference.Resolve`, which `Resolver.StartAndShape` computes. */
module Properties {
  import opened Basics
  import opened Subsets
  import opened Reference

  /** Resolution succeeds exactly when the array has at least two dimensions, no
      more indices are given than it has leading dimensions, and every given
      index lies inside its dimension. */
  lemma SucceedsIff(arrayShape: seq<U64>, cli: Cli)
    ensures Resolve(arrayShape, cli).result.Ok? <==>
      && |arrayShape| >= 2
      && |GivenIndices(cli)| <= |arrayShape| - 2
      && forall i :: 0 <= i < |GivenIndices(cli)| ==> GivenIndices(cli)[i] < arrayShape[i]
  {
  }

  /** An array of fewer than two dimensions is refused before anything is reported,
      and that error arises for no other array. */
  lemma RankGuard(arrayShape: seq<U64>, cli: Cli)
    ensures Resolve(arrayShape, cli).result == Err(FewerThanTwoDimensions) <==> |arrayShape| < 2
    ensures |arrayShape| < 2 ==> Resolve(arrayShape, cli).events == []
  {
  }

  /** More indices than leading dimensions are refused, before anything is
      reported, naming both counts; that error arises in no other case. */
  lemma TooManyIndices(arrayShape: seq<U64>, cli: Cli)
    ensures Resolve(arrayShape, cli).result.Err? && Resolve(arrayShape, cli).result.error.TooManySliceIndices?
      <==> |arrayShape| >= 2 && cli.sliceIndices.Some? && |cli.sliceIndices.value| > |arrayShape| - 2
    ensures |arrayShape| >= 2 && cli.sliceIndices.Some? && |cli.sliceIndices.value| > |arrayShape| - 2 ==>
      Resolve(arrayShape, cli)
        == Run([], Err(TooManySliceIndices(|arrayShape| - 2, |cli.sliceIndices.value|)))
  {
  }

  /** A given index outside its dimension is refused. The error names the first
      such index and its dimension, after the indices before it were reported. */
  lemma IndexOutOfBounds(arrayShape: seq<U64>, cli: Cli, i: nat)
    requires |arrayShape| >= 2
    requires |GivenIndices(cli)| <= |arrayShape| - 2
    requires i < |GivenIndices(cli)| && GivenIndices(cli)[i] >= arrayShape[i]
    ensures Resolve(arrayShape, cli).result.Err?
    ensures Resolve(arrayShape, cli).result.error.SliceIndexOutOfBounds?
    ensures
      var given := GivenIndices(cli);
      var e := Resolve(arrayShape, cli).result.error;
      && e.dimension <= i
      && e.index == given[e.dimension] && given[e.dimension] >= arrayShape[e.dimension]
      && (forall d :: 0 <= d < e.dimension ==> given[d] < arrayShape[d])
      && Resolve(arrayShape, cli).events == SliceEvents(given[..e.dimension])
  {
  }

  /** A successful result has one start and one extent per dimension. */
  lemma Lengths(arrayShape: seq<U64>, cli: Cli)
    requires Resolve(arrayShape, cli).result.Ok?
    ensures |arrayShape| >= 2
    ensures |Resolve(arrayShape, cli).result.value.start| == |arrayShape|
    ensures |Resolve(arrayShape, cli).result.value.shape| == |arrayShape|
  {
  }

  /** On success the given indices are the leading starts verbatim, every other
      leading dimension starts at its midpoint, and both display axes start at 0. */
  lemma Starts(arrayShape: seq<U64>, cli: Cli)
    requires Resolve(arrayShape, cli).result.Ok?
    ensures |arrayShape| >= 2
    ensures
      var start := Resolve(arrayShape, cli).result.value.start;
      var given := GivenIndices(cli);
      var k := |arrayShape| - 2;
      && |given| <= k && |start| == |arrayShape|
      && start[..|given|] == given
      && (forall i :: |given| <= i < k ==> start[i] == arrayShape[i] / 2)
      && start[k] == 0 && start[k + 1] == 0
  {
  }

  /** On success every leading dimension has extent 1 and each display axis keeps
      its full size unless that exceeds the crop size, in which case it is cut to
      the crop size. */
  lemma Extents(arrayShape: seq<U64>, cli: Cli)
    requires Resolve(arrayShape, cli).result.Ok?
    ensures |arrayShape| >= 2
    ensures
      var shape := Resolve(arrayShape, cli).result.value.shape;
      var k := |arrayShape| - 2;
      && |shape| == |arrayShape|
      && (forall i :: 0 <= i < k ==> shape[i] == 1)
      && (forall d :: k <= d < |arrayShape| ==>
            && shape[d] <= arrayShape[d] && shape[d] <= cli.cropSize
            && (cli.cropSize >= arrayShape[d] ==> shape[d] == arrayShape[d])
            && (cli.cropSize < arrayShape[d] ==> shape[d] == cli.cropSize))
  {
  }

  /** On success the subset lies inside the array along both display axes and
      along every leading dimension that is not empty. */
  lemma InBounds(arrayShape: seq<U64>, cli: Cli)
    requires Resolve(arrayShape, cli).result.Ok?
    ensures |arrayShape| >= 2
    ensures
      var s := Resolve(arrayShape, cli).result.value;
      && |s.start| == |s.shape| == |arrayShape|
      && forall i :: 0 <= i < |arrayShape| && (i >= |arrayShape| - 2 || arrayShape[i] >= 1) ==>
           s.start[i] + s.shape[i] <= arrayShape[i]
  {
  }

  /** On success a leading dimension lies inside the array exactly when it is not
      empty: a dimension of extent 0 can only be unindexed, and then it starts at 0
      with extent 1, one past its end. */
  lemma EmptyLeadingDimensionEscapes(arrayShape: seq<U64>, cli: Cli, i: nat)
    requires Resolve(arrayShape, cli).result.Ok?
    requires |arrayShape| >= 2 && i < |arrayShape| - 2
    ensures
      var s := Resolve(arrayShape, cli).result.value;
      && |s.start| == |s.shape| == |arrayShape|
      && (s.start[i] + s.shape[i] <= arrayShape[i] <==> arrayShape[i] >= 1)
      && (arrayShape[i] == 0 ==> i >= |GivenIndices(cli)| && s.start[i] == 0 && s.shape[i] == 1)
  {
  }

  /** A three-dimensional array whose leading dimension is empty resolves to a
      subset reaching past the end of that dimension. */
  lemma ScenarioEmptyLeadingDimension()
    ensures
      var r := Resolve([0, 4, 4], Cli(None, 720));
      && r.result.Ok?
      && r.result.value.start[0] + r.result.value.shape[0] > 0
  {
  }

  /** On success the trace opens with exactly one slicing line per leading
      dimension, in increasing order and naming its start, and the rest of it
      holds only cropping lines. */
  lemma SliceEventsInOrder(arrayShape: seq<U64>, cli: Cli)
    requires Resolve(arrayShape, cli).result.Ok?
    ensures |arrayShape| >= 2
    ensures
      var r := Resolve(arrayShape, cli);
      var k := |arrayShape| - 2;
      && k <= |r.events|
      && (forall i :: 0 <= i < k ==> r.events[i] == Sliced(i, r.result.value.start[i]))
      && (forall i :: k <= i < |r.events| ==> r.events[i].Cropped?)
  {
  }

  /** On success a display axis is reported as cropped exactly when its full size
      exceeds the crop size, at most once, always with the crop size, and Y before X:
      the lines after the slicing lines are exactly those cropping lines. */
  lemma CropReportedExactly(arrayShape: seq<U64>, cli: Cli)
    requires Resolve(arrayShape, cli).result.Ok?
    ensures |arrayShape| >= 2
    ensures
      var r := Resolve(arrayShape, cli);
      var k := |arrayShape| - 2;
      && (Cropped(Y, cli.cropSize) in r.events <==> cli.cropSize < arrayShape[k])
      && (Cropped(X, cli.cropSize) in r.events <==> cli.cropSize < arrayShape[k + 1])
      && (forall e :: e in r.events && e.Cropped? ==> e.size == cli.cropSize)
      && |r.events| == k + (if cli.cropSize < arrayShape[k] then 1 else 0)
                         + (if cli.cropSize < arrayShape[k + 1] then 1 else 0)
      && r.events[k..]
         == (if cli.cropSize < arrayShape[k] then [Cropped(Y, cli.cropSize)] else [])
          + (if cli.cropSize < arrayShape[k + 1] then [Cropped(X, cli.cropSize)] else [])
  {
  }

  /** A four-dimensional array with one index given: the second leading dimension
      is centred and both display axes are cropped. */
  lemma ScenarioFourDimensions()
    ensures Resolve([5, 3, 1000, 2000], Cli(Some([2]), 720))
      == Run([Sliced(0, 2), Sliced(1, 1), Cropped(Y, 720), Cropped(X, 720)],
             Ok(Subset([2, 1, 0, 0], [1, 1, 720, 720])))
  {
    var shape: seq<U64> := [5, 3, 1000, 2000];
    var given: seq<U64> := [2];
    assert FirstOutOfBounds(shape, given, 0) == 1;
    assert SubsetStart(shape, given) == [2, 1, 0, 0];
    assert SubsetShape(shape, 720) == [1, 1, 720, 720];
    assert SliceEvents([2, 1]) == [Sliced(0, 2), Sliced(1, 1)];
  }

  /** A two-dimensional array larger than the crop size on both axes. */
  lemma ScenarioLargePlane()
    ensures Resolve([1000, 2000], Cli(None, 720))
      == Run([Cropped(Y, 720), Cropped(X, 720)], Ok(Subset([0, 0], [720, 720])))
  {
    var shape: seq<U64> := [1000, 2000];
    assert SubsetStart(shape, []) == [0, 0];
    assert SubsetShape(shape, 720) == [720, 720];
  }

  /** A two-dimensional array that fits: nothing is cropped or reported. */
  lemma ScenarioSmallPlane()
    ensures Resolve([500, 600], Cli(None, 720)) == Run([], Ok(Subset([0, 0], [500, 600])))
  {
    var shape: seq<U64> := [500, 600];
    assert SubsetStart(shape, []) == [0, 0];
    assert SubsetShape(shape, 720) == [500, 600];
  }
}
