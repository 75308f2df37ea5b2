# Joint-histogram mutual information and the ComputeStrain command line, in Dafny

This project models two pieces of the AIRS image-registration toolkit and
proves what they compute.

**vtkImageMutualInformation** (modules `Histogram`, `Binning`,
`MutualInformation`). The filter compares two images through their joint
intensity histogram:

- Each worker thread gets a slot in the thread-local storage, a sequence of
  optional buffers indexed by thread id.
- On first use a worker allocates an nx-by-ny buffer and zero-fills it.
- The worker clips its requested extent to both input extents and stops when
  the clipped extent is empty.
- Otherwise it bins every sample pair into one cell. Unsigned-char inputs
  whose bin geometry passes the fast-path test use the pre-scaled path. All
  other inputs use the shift-scale-clamp-round path.
- The reduction works row by row:
  - it merges the worker buffers;
  - it copies the rows of the update extent into the output image;
  - it accumulates the x-marginal, the row totals and the three c·log(c)
    sums.
- It then counts the samples and frees every buffer.
- Finally it sets the mutual information MI = Hx + Hy − Hxy and the
  normalized mutual information NMI = (Hx + Hy)/Hxy, with
  H = −S/count + log(count). With no sample at all, MI = 0 and NMI = 1.

**How the model is organised**

- The class `ImageMutualInformation` keeps the filter's fields.
- Worker buffers are `array<int>` values that the binning loops change in
  place.
- Every loop is a method proved against a pure function on values:
  - `Tally` for binning;
  - `Merged` and `RowOf` for the merge;
  - `ColumnTotals` and `RowTotals` for the marginals;
  - `SumXLogX` for the entropy sums;
  - `OutputRows` for the output image;
  - `MetricsOf` for MI and NMI.
- Lemmas state what those functions mean:
  - every sample adds exactly one count;
  - merging does not depend on worker order;
  - both marginals add up to the sample count;
  - the output cell of (ix, iy) is the merged cell (ix, iy).
- The natural logarithm is a parameter `ln: real -> real`, and doubles are
  modelled as reals.

**ComputeStrain** (modules `CNumbers`, `ComputeStrain`). This is the
command-line side of the program:

- the `--size WxH[xD]` and `--smoothing X[xY[xZ]]` parsers, which walk a
  `char*` cursor with `strtoul`/`strtod`;
- the option loop of `main`, which collects the transform files with their
  inversion flags, keeps the last output-type flag, and records `-o`, `-d`
  and `-R`;
- the rule that picks the target image when `-R` is absent;
- the resizing of the output extent;
- the extension scan and reader dispatch of `strain_read_transform`;
- the basename scan of `strain_usage`;
- the output-type switch.

**How these are modelled**

- Each C loop is a method. Its contract ties it to a pure function:
  - `DimensionsOf`, `SigmasOf` and `Extension`;
  - `ParseFrom` for the option loop;
  - `Resized` for the extent.
- Lemmas give the outcomes on concrete shapes of input ("WxH", "WxHxD", a
  single number, ".nii.gz").
- C strings are `string` values read through `At`, which yields NUL at and
  past the end.
- `strtoul` reads a run of decimal digits, saturating at ULONG_MAX.
- `static_cast<int>` keeps the low 32 bits.
- `strtod` reads an unsigned decimal `d+[.d*]` or `.d+`.

The code does not check the bin counts: a count of zero or less reaches
the buffer allocation and the binning loops unchanged. The model takes
1 ≤ nx, ny as the class invariant `ImageMutualInformation.Valid`.

## Model

| member | source | states |
|---|---|---|
| Histogram.TallyAt | ImageRegistration/vtkImageMutualInformation.cxx:514-516 | after binning a run of samples, each cell has grown by the number of samples binned into it; a cell no sample hit is unchanged |
| Histogram.TallyTotal | ImageRegistration/vtkImageMutualInformation.cxx:565-567 | binning adds exactly one count per sample: the histogram total grows by the number of samples visited |
| Histogram.MergedTotal | ImageRegistration/vtkImageMutualInformation.cxx:813-830 | the merged histogram holds every count of every allocated worker buffer, and unallocated workers add nothing |
| Histogram.CellSumPermutation | ImageRegistration/vtkImageMutualInformation.cxx:815-830 | a merged cell is the same whatever order the workers are visited in |
| Histogram.MergedOrderIndependent | ImageRegistration/vtkImageMutualInformation.cxx:815-830 | the whole merged histogram does not depend on the order of the worker buffers |
| Histogram.WorkerStart | ImageRegistration/vtkImageMutualInformation.cxx:965-979 | a worker bins into its own buffer, or into a zero-filled one when it has none yet |
| Histogram.MergedAfterTally | ImageRegistration/vtkImageMutualInformation.cxx:962-979 | binning samples into the buffer of any one worker, allocated or not, adds exactly those samples to the merged histogram |
| Histogram.MergedNoWorkersRow | ImageRegistration/vtkImageMutualInformation.cxx:807-811 | before any worker is added, the row being merged is all zeros |
| Histogram.MergedRowStep | ImageRegistration/vtkImageMutualInformation.cxx:819-829 | adding one more worker adds its row iy, at offset nx*iy, to the merged row when the worker has a buffer, and leaves the row unchanged otherwise |
| Histogram.RowStep | ImageRegistration/vtkImageMutualInformation.cxx:849-865 | one more row adds its cells to the x-marginal, the c·log(c) of its total to the y sum, and its cells' c·log(c) to the joint sum |
| Histogram.ColumnTotalsSum | ImageRegistration/vtkImageMutualInformation.cxx:869-873 | the total of the x-marginal xHist equals the number of samples in the rows reduced so far |
| Histogram.RowTotalsSum | ImageRegistration/vtkImageMutualInformation.cxx:826-827 | the row totals `a` add up to the number of samples in the rows reduced so far |
| Histogram.MarginalTotals | ImageRegistration/vtkImageMutualInformation.cxx:869-879 | both marginals add up to the same sample count |
| Histogram.SampleCount | ImageRegistration/vtkImageMutualInformation.cxx:869-879 | `count` equals the total of all cells of all workers, and also the sum of the row totals `a` |
| Histogram.MetricsWithoutSamples | ImageRegistration/vtkImageMutualInformation.cxx:891-895 | when no worker holds a sample, MI = 0 and NMI = 1 |
| Histogram.OutputRowsAt | ImageRegistration/vtkImageMutualInformation.cxx:799-846 | the output cell at row iy − ue[2], column ix − ue[0] (rows ue[1] − ue[0] + 1 wide) is merged cell (ix, iy), for every (ix, iy) inside the update extent |
| Histogram.OutputRowsNext | ImageRegistration/vtkImageMutualInformation.cxx:799-805 | one more row appends its columns ue[0]..ue[1] when the row lies in [ue[2], ue[3]], and nothing otherwise |
| Histogram.OutputRowsFill | ImageRegistration/vtkImageMutualInformation.cxx:833-846 | over all ny rows, the reduction writes exactly as many values as the update extent has cells |
| Histogram.OutputRowsLength | ImageRegistration/vtkImageMutualInformation.cxx:844-845 | the output holds ue[1] − ue[0] + 1 values for each row of the update extent reduced so far, and nothing when the column range is empty |
| Binning.BinOffset | ImageRegistration/vtkImageMutualInformation.cxx:821 | bin (xi, yi) lies at offset nx*yi + xi, the stride the reduction reads, which lies inside the nx*ny buffer |
| Binning.BinOffsetInjective | ImageRegistration/vtkImageMutualInformation.cxx:821 | two different bins never share a cell |
| Binning.BinOffsetAsWritten | ImageRegistration/vtkImageMutualInformation.cxx:514 | the offset yi*numBins[1] + xi that the binning loops compute; it agrees with the reader's stride nx*yi + xi when nx == ny |
| Binning.AsWrittenOffsetOverruns | ImageRegistration/vtkImageMutualInformation.cxx:970-974 | with nx < ny, the sample in the last bin is written at or past the end of the nx*ny-cell buffer |
| Binning.AsWrittenOffsetMisfiles | ImageRegistration/vtkImageMutualInformation.cxx:545-565 | with nx > ny, bin (0, 1) is written where the reduction reads bin (ny, 0) |
| Binning.PreScaledBin | ImageRegistration/vtkImageMutualInformation.cxx:559-563 | the fast-path bin is min(v, n − 1): always in [0, n − 1], and it differs from v only when it is the last bin |
| Binning.GeneralBin | ImageRegistration/vtkImageMutualInformation.cxx:496-512 | the general-path bin always lies in [0, n − 1] |
| Binning.GeneralBinIsNearestBin | ImageRegistration/vtkImageMutualInformation.cxx:499-512 | shifting, scaling, clamping and then rounding by +0.5 truncation gives the nearest bin of (v − origin)/spacing, clamped to the histogram |
| Binning.GeneralBinMonotonic | ImageRegistration/vtkImageMutualInformation.cxx:496-512 | with positive spacing, a larger intensity never falls in a lower bin |
| Binning.PreScaledMatchesGeneral | ImageRegistration/vtkImageMutualInformation.cxx:1018-1030 | with origin 0 and spacing 1, the general path bins an 8-bit value exactly as the pre-scaled path does |
| MutualInformation.IntersectionContains | ImageRegistration/vtkImageMutualInformation.cxx:994-1000 | the clipped extent holds exactly the points held by the requested extent and by both input extents |
| MutualInformation.EmptyMeansNoPoint | ImageRegistration/vtkImageMutualInformation.cxx:1001-1004 | an extent with an empty axis holds no point, and an extent holding no point has an empty axis |
| MutualInformation.ClipAxes | ImageRegistration/vtkImageMutualInformation.cxx:994-1000 | after clipping the first `axes` axes, those axes hold the intersection and the remaining axes the requested extent |
| MutualInformation.IntersectionAxis | ImageRegistration/vtkImageMutualInformation.cxx:996-999 | each axis of the intersection runs from the largest lower bound to the smallest upper bound of the three extents |
| MutualInformation.ClipAxesStep | ImageRegistration/vtkImageMutualInformation.cxx:994-1000 | clipping one more axis replaces exactly that axis' two bounds by the intersection's |
| MutualInformation.FirstEmptyAxis | ImageRegistration/vtkImageMutualInformation.cxx:994-1005 | the axis at which the clipping loop returns: every earlier axis is non-empty and that one is empty; 3 exactly when none is empty |
| MutualInformation.ClipAxis | ImageRegistration/vtkImageMutualInformation.cxx:996-1000 | one axis of the extent is raised to the larger lower bound and lowered to the smaller upper bound of both inputs, in place; nothing else changes |
| MutualInformation.ClipExtent | ImageRegistration/vtkImageMutualInformation.cxx:989-1005 | reports "inside" exactly when the intersection is non-empty; the extent then is the intersection, and otherwise it is clipped up to and including the first empty axis |
| MutualInformation.Values | ImageRegistration/vtkImageMutualInformation.cxx:496-497 | the general path reads each 8-bit sample pair as the same pair of doubles |
| MutualInformation.PreScaledOffsets | ImageRegistration/vtkImageMutualInformation.cxx:559-565 | every 8-bit sample pair is binned into a cell of the nx*ny buffer |
| MutualInformation.GeneralOffsets | ImageRegistration/vtkImageMutualInformation.cxx:496-514 | every sample pair is binned into a cell of the nx*ny buffer |
| MutualInformation.SampleOffsets | ImageRegistration/vtkImageMutualInformation.cxx:1018-1041 | whichever path the fast-path test selects, every cell lies inside the buffer |
| MutualInformation.PathChoiceInvisible | ImageRegistration/vtkImageMutualInformation.cxx:1018-1041 | for the identity bin geometry, the fast path and the general path count every sample in the same cell |
| MutualInformation.BinCenterBinsToItself | ImageRegistration/vtkImageMutualInformation.cxx:341-347 | the intensity origin + ix*spacing that the output image assigns to column ix is binned by the general path into column ix |
| MutualInformation.ExecutePreScaled | ImageRegistration/vtkImageMutualInformation.cxx:528-576 | the 8-bit loop adds one count per sample pair to its cell, in place: the buffer becomes Tally(old buffer, cells) |
| MutualInformation.Execute | ImageRegistration/vtkImageMutualInformation.cxx:459-525 | the general loop adds one count per sample pair to its cell, in place |
| MutualInformation.CopyRow | ImageRegistration/vtkImageMutualInformation.cxx:581-593 | columns outStart..outEnd of the merged row are copied to the output at the cursor; the rest of the output is unchanged |
| MutualInformation.AddRow | ImageRegistration/vtkImageMutualInformation.cxx:821-828 | nx counts of a worker buffer from offset nx*iy are added to xyHist cell by cell, and their total is added to `a` |
| MutualInformation.MergeWorker | ImageRegistration/vtkImageMutualInformation.cxx:819-829 | adding row iy of one worker buffer to xyHist keeps `a` equal to the total of xyHist |
| MutualInformation.MergeWorkers | ImageRegistration/vtkImageMutualInformation.cxx:813-830 | after all workers, xyHist is row iy of the merged histogram and `a` is its total |
| MutualInformation.MergeRow | ImageRegistration/vtkImageMutualInformation.cxx:807-830 | clearing xyHist and then merging gives row iy of the merged histogram and its total |
| MutualInformation.AccumulateRow | ImageRegistration/vtkImageMutualInformation.cxx:855-865 | the merged row is added to xHist, and the c·log(c) of its non-empty cells to the joint sum |
| MutualInformation.CountSamples | ImageRegistration/vtkImageMutualInformation.cxx:868-879 | `count` is the total of xHist, and xEntropy is the c·log(c) sum of its non-empty cells |
| MutualInformation.MetricsFromSums | ImageRegistration/vtkImageMutualInformation.cxx:891-912 | MI and NMI from the count and the three sums equal MetricsOf of the merged histogram, including the sentinel MI = 0, NMI = 1 without samples |
| MutualInformation.RowsDoneStep | ImageRegistration/vtkImageMutualInformation.cxx:797-866 | one more row keeps the reduction invariant: column totals, the y and joint sums, and the output prefix |
| MutualInformation.CopyRowIfInside | ImageRegistration/vtkImageMutualInformation.cxx:799-846 | a row is copied only when it lies inside [ue[2], ue[3]], and the output then holds OutputRows of the rows reduced so far |
| MutualInformation.ReduceRow | ImageRegistration/vtkImageMutualInformation.cxx:797-866 | one iteration of the row loop keeps the reduction invariant |
| MutualInformation.ReduceRows | ImageRegistration/vtkImageMutualInformation.cxx:789-866 | after the row loop, xHist holds the column totals of the merged histogram, the two sums its row-total and joint c·log(c) sums, and the output holds the update extent's part of it |
| MutualInformation.ReduceHistograms | ImageRegistration/vtkImageMutualInformation.cxx:776-912 | the output image and the MI/NMI pair are those of the merged histogram |
| MutualInformation.CountSamplesInExtent | ImageRegistration/vtkImageMutualInformation.cxx:989-1041 | the worker buffer gains the worker's samples when the clipped extent is non-empty, and nothing otherwise |
| MutualInformation.ImageMutualInformation.constructor | ImageRegistration/vtkImageMutualInformation.cxx:230-246 | 64×64 bins, origin (0, 0), spacing (1, 1), float output, MI and NMI 0, no thread-local storage |
| MutualInformation.ImageMutualInformation.RequestInformation | ImageRegistration/vtkImageMutualInformation.cxx:325-362 | the output holds exactly the points [0, nx − 1] × [0, ny − 1] × [0, 0], with the bin origin and spacing and one component of the output scalar type |
| MutualInformation.ImageMutualInformation.CreateThreadData | ImageRegistration/vtkImageMutualInformation.cxx:173-177 | thread-local storage for `threads` workers, none of them with a buffer |
| MutualInformation.ImageMutualInformation.ReleaseThreadData | ImageRegistration/vtkImageMutualInformation.cxx:752 | after the reduction there is no thread-local storage |
| MutualInformation.ImageMutualInformation.LocalHistogram | ImageRegistration/vtkImageMutualInformation.cxx:962-979 | a worker without a buffer gets a fresh one of nx*ny zeros; an existing buffer is handed back unchanged; no other worker shares it |
| MutualInformation.ImageMutualInformation.ThreadedRequestData | ImageRegistration/vtkImageMutualInformation.cxx:954-1042 | only worker threadId's histogram changes: it becomes its starting buffer plus its samples, or plus nothing when the clipped extent is empty |
| MutualInformation.ImageMutualInformation.FreeThreadData | ImageRegistration/vtkImageMutualInformation.cxx:881-887 | every worker buffer is freed |
| MutualInformation.ImageMutualInformation.ReduceRequestData | ImageRegistration/vtkImageMutualInformation.cxx:759-915 | the output holds the update extent of the merged histogram, every buffer is freed, and MI and NMI are those of the merged histogram |
| CNumbers.DigitsEnd | Programs/ComputeStrain.cxx:458 | the cursor strtoul and strtod leave after a digit run stops at the first non-digit |
| CNumbers.Saturate | Programs/ComputeStrain.cxx:458 | a value too large for an unsigned long becomes ULONG_MAX; any other value is kept |
| CNumbers.Strtoul | Programs/ComputeStrain.cxx:458 | strtoul stops at a non-digit; with no digit it yields 0 and leaves the cursor where it was |
| CNumbers.ToInt | Programs/ComputeStrain.cxx:458 | static_cast<int> yields an int congruent to the value modulo 2^32, and equal to it when it fits |
| CNumbers.Strtod | Programs/ComputeStrain.cxx:495 | strtod moves the cursor forward within the string and yields 0 when it reads nothing |
| CNumbers.StrtoulReadsDigits | Programs/ComputeStrain.cxx:458 | strtoul reads a run of digits followed by a non-digit as its saturated decimal value, with the cursor just after it |
| CNumbers.StrtodReadsDigits | Programs/ComputeStrain.cxx:495 | strtod reads digits followed by neither a digit nor '.' as their decimal value |
| CNumbers.StrtodReadsFraction | Programs/ComputeStrain.cxx:495 | strtod reads d.f as d plus f/10^len(f), with the cursor after f |
| ComputeStrain.CommandName | Programs/ComputeStrain.cxx:75-76 | the printed command name is the longest suffix of argv[0] with no '/' or '\\' |
| ComputeStrain.DimensionsOf | Programs/ComputeStrain.cxx:455-476 | a valid --size value always yields three numbers |
| ComputeStrain.SigmasOf | Programs/ComputeStrain.cxx:492-519 | a valid --smoothing value always yields three numbers |
| ComputeStrain.SizeValue | Programs/ComputeStrain.cxx:447-453 | a missing value, or one that starts with '-', is rejected as missing before any parsing; the option succeeds exactly when a value follows and parses |
| ComputeStrain.SmoothingValue | Programs/ComputeStrain.cxx:484-490 | the same for --smoothing |
| ComputeStrain.DimensionsOfFields | Programs/ComputeStrain.cxx:456-476 | given the numbers and cursors of the three strtoul calls: a non-'x' after the first number, or anything but NUL after the last, is an error; NUL after the second gives (W, H, −1), and NUL after the third gives (W, H, D) |
| ComputeStrain.SigmasOfFields | Programs/ComputeStrain.cxx:493-519 | given the values and cursors of the three strtod calls: NUL after the first copies it into all three; NUL after the second sets the third to −1; NUL after the third gives all three; any other stop character is an error |
| ComputeStrain.Dimensions | Programs/ComputeStrain.cxx:443-477 | the cursor loop fills g exactly when the value is valid, with the values DimensionsOf gives, and returns the error otherwise |
| ComputeStrain.Sigmas | Programs/ComputeStrain.cxx:480-520 | the cursor loop fills g exactly when the value is valid, with the values SigmasOf gives, and returns the error otherwise |
| ComputeStrain.DimensionsOfTwo | Programs/ComputeStrain.cxx:456-467 | "WxH" yields (W, H, −1) |
| ComputeStrain.DimensionsOfThree | Programs/ComputeStrain.cxx:456-476 | "WxHxD" yields (W, H, D) |
| ComputeStrain.DimensionsOfOne | Programs/ComputeStrain.cxx:468-475 | a single number is an error |
| ComputeStrain.DimensionsOfTrailing | Programs/ComputeStrain.cxx:468-475 | a value ending in a character that is neither a digit nor 'x' is an error |
| ComputeStrain.SigmasOfOne | Programs/ComputeStrain.cxx:500-505 | one --smoothing value is copied into all three slots |
| ComputeStrain.SigmasOfTwo | Programs/ComputeStrain.cxx:506-510 | two --smoothing values set the third to −1 |
| ComputeStrain.LastDot | Programs/ComputeStrain.cxx:293 | the backward scan stops at the last '.' before n, or at 0 when there is none |
| ComputeStrain.ScanBack | Programs/ComputeStrain.cxx:293 | the decrementing loop finds that position |
| ComputeStrain.Extension | Programs/ComputeStrain.cxx:292-298 | the extension is always a suffix of the file name |
| ComputeStrain.ExtensionOf | Programs/ComputeStrain.cxx:292-298 | the two scans, the second only after ".gz", compute that extension |
| ComputeStrain.ExtensionOfPlain | Programs/ComputeStrain.cxx:292-293 | a name ending in ".w", with no other '.' in w and other than ".gz", has extension ".w" |
| ComputeStrain.ExtensionOfCompressed | Programs/ComputeStrain.cxx:294-297 | a name ending in ".w.gz", with no '.' in w, has extension ".w.gz" |
| ComputeStrain.TransformReaderOf | Programs/ComputeStrain.cxx:302-413 | the reader chosen for a file is the one its extension selects, or none |
| ComputeStrain.XfmSelectsMniReader | Programs/ComputeStrain.cxx:302-309 | ".xfm" files go to the MNI reader |
| ComputeStrain.TxtSelectsItkReader | Programs/ComputeStrain.cxx:310-311 | ".txt" files go to the ITK reader |
| ComputeStrain.TfmSelectsItkReader | Programs/ComputeStrain.cxx:310-311 | ".tfm" files go to the ITK reader |
| ComputeStrain.NiiSelectsDisplacementReader | Programs/ComputeStrain.cxx:334-335 | ".nii" files are read as displacement fields |
| ComputeStrain.NiiGzSelectsDisplacementReader | Programs/ComputeStrain.cxx:334-335 | ".nii.gz" files are read as displacement fields |
| ComputeStrain.ReadTransforms | Programs/ComputeStrain.cxx:699-709 | all transforms are read, in order and with their inversion flags, exactly when every extension is recognized; otherwise the error is the extension of the first file whose extension is not recognized, and every earlier file has a reader |
| ComputeStrain.ParseArguments | Programs/ComputeStrain.cxx:551-644 | the option loop yields exactly the outcome of ParseCommandLine |
| ComputeStrain.ParseFromKeepsWellFormed | Programs/ComputeStrain.cxx:621-637 | the file and inversion lists stay the same length, every flag is 0 or 1, and files are only appended, each one an argument |
| ComputeStrain.BareArgumentsAreTransforms | Programs/ComputeStrain.cxx:633-637 | arguments not starting with '-' are appended in order with inversion flag 0 |
| ComputeStrain.ParsedIffReadsCleanly | Programs/ComputeStrain.cxx:551-644 | the loop reaches the end of the command line exactly when every argument it reads as an option reads cleanly: no --help, no unknown option, a file after each file flag, and a valid value after --size and --smoothing. Values of options are not read as options |
| ComputeStrain.UnrecognizedOptionStops | Programs/ComputeStrain.cxx:638-643 | the first argument read as an option that begins with '-' and is no known option ends the loop with a usage error naming it, once every option before it has read cleanly |
| ComputeStrain.TransformsInOrder | Programs/ComputeStrain.cxx:621-637 | after a successful parse, the transform list is exactly the bare arguments (inversion flag 0) and the files after each -i (flag 1), in command-line order |
| ComputeStrain.LastOutputTypeFlagWins | Programs/ComputeStrain.cxx:548-579 | after a successful parse of any command line, the last output-type flag read as an option decides the output type. Without one, the type stays GreensStrainTensor. A flag given as the value of -o or -i is a file name |
| ComputeStrain.EndsInNiftiIffDisplacement | Programs/ComputeStrain.cxx:659-660 | the name test on the first transform file accepts exactly the files the reader dispatch reads as displacement fields |
| ComputeStrain.Files | Programs/ComputeStrain.cxx:646-671 | the output file is required; the target is the -R file, or else the first transform file when it is a displacement field; otherwise NoTargetFile |
| ComputeStrain.ResizedSamples | Programs/ComputeStrain.cxx:687-697 | every resized axis keeps its first index and holds outputSize[j] samples; an axis with no requested size keeps its count |
| ComputeStrain.ResizeExtent | Programs/ComputeStrain.cxx:687-697 | the in-place loop over the axes gives Resized(old extent, outputSize) |
| ComputeStrain.OutputValueFor | Programs/ComputeStrain.cxx:713-728 | the strain filter computes the principal components exactly for the two principal-component output types |
| ComputeStrain.ExtractedComponents | Programs/ComputeStrain.cxx:743-762 | components are extracted exactly when the principal components are computed, and then they are a prefix of the components 0, 1, 2 |
| ComputeStrain.OutputTypesDistinct | Programs/ComputeStrain.cxx:713-750 | two output types request the same quantity only when both are principal-component outputs, and the extracted components then tell them apart |

## Left out

- Threading is not modelled. The multi-threader, vtkSMPTools and the SMP
  thread-local storage are left out. Workers are calls made one after
  another on an indexed sequence of buffers, as in the non-SMP storage.
- `vtkImageStencilIterator` and the raw scalar access to the input images are not modelled.
  Each worker's in-mask samples are an input sequence of value pairs.
- The fast-path test on the bin geometry (`vtkMath::Floor` on doubles) is a
  boolean input.
- Scalar-type dispatch (`vtkTemplateAliasMacro`) is not modelled. Samples are
  either 8-bit pairs or pairs of doubles.
- The unknown-scalar-type error messages are not modelled.
- Doubles are reals, so rounding and NaN inputs are not modelled. `log` is
  an uninterpreted parameter, so NMI ∈ [1, 2] is not claimed.
  - A division by a zero joint entropy yields `NonFinite`, standing for the
    infinity or NaN of the C++ code.
- `vtkIdType` counts are unbounded integers, so 64-bit overflow of a count is
  not modelled.
- The output image stores the merged counts as integers. The
  `static_cast<T>` narrowing to the output scalar type is not modelled.
- Pipeline plumbing is left out: `RequestData`, `RequestUpdateExtent`,
  `FillInputPortInformation`, `GetStencil` and `PrintSelf`.
- MutualInformation.ImageMutualInformation.ReduceRequestData requires the
  update extent to lie inside the histogram's whole extent. The pipeline
  guarantees this through RequestInformation, and the C++ code does not
  check it.
- MutualInformation.ImageMutualInformation.ThreadedRequestData requires a non-zero bin spacing, and so do MutualInformation.Execute and MutualInformation.CountSamplesInExtent. The C++ code divides by the spacing without a check, and a zero spacing there gives infinite or NaN bin positions.
- MutualInformation.ImageMutualInformation.ThreadedRequestData does not state
  the clipped extent it leaves behind. ClipExtent states it.
- ComputeStrain.Dimensions says nothing about g on the error path. The C++
  code exits there after writing part of g.
- ComputeStrain.Sigmas says the same, for the same reason.
- CNumbers.Strtoul does not cover leading white space, a sign, or a base
  prefix.
- CNumbers.Strtod does not cover white space, a sign, exponents,
  hexadecimal, or "inf"/"nan".
- CNumbers.ToInt takes the low 32 bits. Before C++20 that conversion is
  implementation-defined.
- ComputeStrain.ResizeExtent computes with unbounded integers. The C `int`
  sum at Programs/ComputeStrain.cxx:694 can overflow for a huge --size.
- The real-valued spacing and origin recomputation of the resize loop is
  not modelled.
- The transform and NIfTI readers, Gaussian smoothing, B-spline
  coefficients, the LPS/RAS matrices, vtkTransformToStrain and the NIfTI
  writer are foreign code and are not modelled.
  - Only the choice of reader and of the output quantity is modelled.
- `strain_check_error`, the usage and help texts, and `exit` are not
  modelled. The outcomes `Help` and `Usage(error)` of the option loop stand
  for them.
- The `-d` file is parsed into the options. It is not used afterwards, as in
  the C++ code.

## Findings

| source | as written | input that shows it | evidently intended | confidence | as-written member | corrected member |
|---|---|---|---|---|---|---|
| ImageRegistration/vtkImageMutualInformation.cxx:482-514 | both binning loops address cell (xi, yi) at yi*numBins[1] + xi (also :545-565); the buffer is allocated as numBins[0]*numBins[1] cells and the reduction reads row iy at nx*iy | numberOfBins = (2, 3): the sample pair in bin (1, 2) is written at 3*2 + 1 = 7, past the 6-cell buffer; numberOfBins = (3, 2): bin (0, 1) is written at 2, where the reduction reads bin (2, 0) | row stride numBins[0] = nx, so that binning and reduction agree on the layout | not executed | Binning.BinOffsetAsWritten (Binning.AsWrittenOffsetOverruns, Binning.AsWrittenOffsetMisfiles) | Binning.BinOffset (Binning.BinOffsetInjective) |
