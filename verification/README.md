# peekzarr subset resolver, in Dafny

peekzarr shows one 2-D plane of an N-dimensional OME-Zarr array in the terminal.
Before it reads anything it must decide which rectangular subset of the array to
fetch. That decision is made by `start_and_shape` and its rank guard
`ensure_at_least_2d`, and this project models and proves both.

The two trailing dimensions (Y, X) are the display axes. Every other dimension is a
leading dimension. A leading dimension is read at the index given on the command line.
When no index is given for it, it is read at its midpoint, `extent / 2`. Either way its
extent is 1. A display axis starts at 0 and keeps its full size, capped at the crop
size. The resolver refuses three inputs:

- an array with fewer than two dimensions;
- more indices than there are leading dimensions;
- an index at or beyond the extent of its dimension.

Each index is checked just before it is used, so the first bad index is the one
reported.

The program prints a line whenever it fixes a leading dimension ("Slicing
dimension …") or caps a display axis ("Cropping dimension …"). Here those lines are
returned as a trace of `Event`s next to the outcome (`Subsets.Run`). When the program
stops on a bad index, the lines printed before it are kept in the trace too.

Layout:

- `basics.dfy` (`Basics`): the `u64` type as the subset type `U64`, plus `Option`,
  `Result` and `Min`. No arithmetic in the resolver can leave the `u64` range, because
  it only halves and takes minima.
- `subsets.dfy` (`Subsets`): the parsed options (`Cli`, carrying only `slice_indices`
  and `crop_size`), the display axes, events, the subset, the errors, and a run.
- `reference.dfy` (`Reference`): `Resolve`, a declarative statement of the outcome,
  given dimension by dimension.
- `resolver.dfy` (`Resolver`): the resolver as the program runs it. It keeps the same
  loops and the same order of checks and printed lines. Each loop is its own method:
  given indices, midpoints, then display axes. The whole is proved equal to `Resolve`
  for every input.
- `properties.dfy` (`Properties`): what resolution promises, proved about `Resolve`.

A caller would expect `start[i] + extent[i] <= shape[i]` for every dimension. The code
does not guarantee it. Take a leading
dimension of extent 0 with no index given. It starts at `0 / 2 = 0` and its extent is
1, so the subset ends one past the end of the array. This model follows the code.
`Properties.InBounds` states the bound for every display axis and for every non-empty
leading dimension. `Properties.EmptyLeadingDimensionEscapes` shows that on a leading
dimension the bound holds exactly when the dimension is not empty, and
`Properties.ScenarioEmptyLeadingDimension` gives a concrete input where it fails.

## Model

| member | source | states |
|---|---|---|
| `Resolver.EnsureAtLeast2d` | src/main.rs:35-40 | the guard passes exactly when the shape has at least two dimensions; otherwise it fails with the rank error |
| `Resolver.PushIndex` | src/main.rs:42-45 | appends the value as the newest start and reports it as one slicing line, leaving earlier starts and lines untouched; a start list and trace that agree line for line still agree afterwards |
| `Resolver.SliceGivenIndices` | src/main.rs:60-69 | fixes the given indices as the leading starts in order; when an index is not inside its dimension, it fails naming the first such index and its dimension, with only the earlier indices reported |
| `Resolver.SliceRemainingAtMidpoints` | src/main.rs:71-73 | keeps the starts already fixed and starts every remaining leading dimension at its midpoint, with one slicing line per dimension in order |
| `Resolver.CropDisplayAxes` | src/main.rs:77-87 | yields extent 1 for each leading dimension and the capped full size for each display axis, reporting Y and then X exactly when that axis is capped |
| `Resolver.StartAndShape` | src/main.rs:47-89 | the loop-by-loop resolver yields, for every shape and option set, the same trace and outcome as the declarative `Resolve` |
| `Reference.Resolve` | src/main.rs:47-89 | the declarative outcome of resolution, dimension by dimension; a success has one start and one extent per dimension, and only the out-of-bounds error comes after lines were printed |
| `Reference.FirstOutOfBounds` | src/main.rs:60-67 | finds the first given index that is not below its dimension's extent, with every earlier index inside its dimension; returns the number of indices when all of them fit |
| `Properties.SucceedsIff` | src/main.rs:35-89 | resolution succeeds if and only if the rank is at least 2, the index count is at most rank − 2, and every given index is below its dimension's extent |
| `Properties.RankGuard` | src/main.rs:35-49 | a shape of rank below 2 is refused with the rank error before anything is printed, and no other shape gets that error |
| `Properties.TooManyIndices` | src/main.rs:50-59 | more indices than leading dimensions are refused before anything is printed, reporting the expected and given counts; this error arises in no other case |
| `Properties.IndexOutOfBounds` | src/main.rs:60-68 | an index at or beyond its extent is refused; the error names the first such index and its dimension, and only the indices before it were reported |
| `Properties.Lengths` | src/main.rs:51-77 | a successful result has exactly one start and one extent per dimension |
| `Properties.Starts` | src/main.rs:60-76 | given indices are the leading starts verbatim, the remaining leading dimensions start at their midpoints, and both display axes start at 0 |
| `Properties.Extents` | src/main.rs:77-87 | leading extents are 1; a display extent is the full size when the crop size covers it and the crop size otherwise |
| `Properties.InBounds` | src/main.rs:60-87 | the subset lies within the array on both display axes and on every leading dimension of non-zero extent |
| `Properties.EmptyLeadingDimensionEscapes` | src/main.rs:60-77 | on success a leading dimension satisfies start + extent <= extent of the array exactly when that dimension is not empty; an empty one is never indexed and resolves to start 0 and extent 1 |
| `Properties.ScenarioEmptyLeadingDimension` | src/main.rs:71-77 | shape [0, 4, 4] with no indices resolves successfully to a subset reaching past the end of dimension 0 |
| `Properties.SliceEventsInOrder` | src/main.rs:42-73 | on success the trace begins with exactly one slicing line per leading dimension, in increasing order and carrying its start; every later line is a cropping line |
| `Properties.CropReportedExactly` | src/main.rs:78-86 | after the slicing lines the trace holds exactly one cropping line for Y if Y's full size exceeds the crop size, then one for X if X's does, each carrying the crop size, and nothing else |
| `Properties.ScenarioFourDimensions` | src/main.rs:47-89 | shape [5, 3, 1000, 2000] with index [2] and crop 720 resolves to start [2, 1, 0, 0] and extent [1, 1, 720, 720], with both axes cropped |
| `Properties.ScenarioLargePlane` | src/main.rs:47-89 | shape [1000, 2000] with crop 720 resolves to extent [720, 720], with both axes reported cropped |
| `Properties.ScenarioSmallPlane` | src/main.rs:47-89 | shape [500, 600] with crop 720 keeps the full extent [500, 600] and prints nothing |

## Left out

- Command-line parsing with `clap` (src/main.rs:13-33, 151). The resolver gets the indices and the crop size already parsed. The path, array name and quantile options are not modelled.
- `decode_subset` (src/main.rs:91-130) is not modelled. It dispatches on the element type into the `zarrs` store, which does file I/O and decompression. It converts each supported element type to `f32`: `f32` is kept, `f64` is narrowed, and wide integers are rounded. It refuses every other element type. It then reshapes through `ndarray`, a foreign library call, using the last two extents as rows and columns.
- `read_image` (src/main.rs:132-140) is not modelled. It opens the filesystem store and builds the `ArraySubset`, which is I/O and library glue.
- `image_quantile` (src/main.rs:142-148) is not modelled. It wraps the nearest-rank quantile of `ndarray_stats` over floating point, and that library is not part of this model.
- Normalisation in `main` (src/main.rs:156) is not modelled. It is a floating-point clamp, divide and cast. It also divides without a guard when both quantiles are equal.
- Image buffer assembly and terminal display (src/main.rs:157-169) are not modelled. They rely on the `ndarray`, `image` and `viuer` crates.
- The printed lines are modelled only by their content (`Subsets.Event`), not by their text formatting.
