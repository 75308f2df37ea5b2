/** vtkImageMutualInformation: each worker thread bins the sample pairs of
    its piece of the two input images into its own nx-by-ny joint histogram
    (allocated and zero-filled on first use), and a final reduction merges the
    worker histograms row by row, copies the requested rows into the output
    image, frees the worker buffers and derives the mutual information and the
    normalized mutual information of the two images.

    Worker threads are modelled as calls made one after the other; the
    samples a worker visits (what the stencil iterator yields inside the
    clipped extent) are given as a sequence of value pairs. */
module MutualInformation {
  import opened Wrappers
  import opened Histogram
  import opened Binning

  /** VTK_FLOAT, the default output scalar type. */
  const VtkFloat: int := 10

  // ------------------------------------------------------------- extents

  function Max(a: int, b: int): int { if a > b then a else b }
  function Min(a: int, b: int): int { if a < b then a else b }

  /** An extent [x0, x1, y0, y1, z0, z1] holds point p when every coordinate
      lies inside its axis' inclusive range. */
  predicate Contains(e: seq<int>, p: seq<int>)
    requires |e| == 6 && |p| == 3
  {
    e[0] <= p[0] <= e[1] && e[2] <= p[1] <= e[3] && e[4] <= p[2] <= e[5]
  }

  predicate IsEmpty(e: seq<int>)
    requires |e| == 6
  {
    e[0] > e[1] || e[2] > e[3] || e[4] > e[5]
  }

  /** The requested extent clipped, axis by axis, to both input extents. */
  function Intersection(e: seq<int>, a: seq<int>, b: seq<int>): (r: seq<int>)
    requires |e| == 6 && |a| == 6 && |b| == 6
    ensures |r| == 6
  {
    [Max(Max(e[0], a[0]), b[0]), Min(Min(e[1], a[1]), b[1]),
     Max(Max(e[2], a[2]), b[2]), Min(Min(e[3], a[3]), b[3]),
     Max(Max(e[4], a[4]), b[4]), Min(Min(e[5], a[5]), b[5])]
  }

  /** The clipped extent holds exactly the points held by all three extents. */
  lemma IntersectionContains(e: seq<int>, a: seq<int>, b: seq<int>, p: seq<int>)
    requires |e| == 6 && |a| == 6 && |b| == 6 && |p| == 3
    ensures Contains(Intersection(e, a, b), p) <==> Contains(e, p) && Contains(a, p) && Contains(b, p)
  {
  }

  /** An extent is empty exactly when it holds no point. */
  lemma EmptyMeansNoPoint(e: seq<int>)
    requires |e| == 6
    ensures IsEmpty(e) <==> forall p :: |p| == 3 ==> !Contains(e, p)
  {
    if !IsEmpty(e) {
      assert Contains(e, [e[0], e[2], e[4]]);
    }
  }

  /** The axes 0 .. axes-1 of `e` clipped, the others as requested. */
  function ClipAxes(e: seq<int>, a: seq<int>, b: seq<int>, axes: int): (r: seq<int>)
    requires |e| == 6 && |a| == 6 && |b| == 6 && 0 <= axes <= 3
    ensures |r| == 6
    ensures forall k :: 0 <= k < 2 * axes ==> r[k] == Intersection(e, a, b)[k]
    ensures forall k :: 2 * axes <= k < 6 ==> r[k] == e[k]
  {
    Intersection(e, a, b)[..2 * axes] + e[2 * axes..]
  }

  /** Axis `axis` of the clipped extent: the largest lower bound and the
      smallest upper bound of the three extents. */
  lemma IntersectionAxis(e: seq<int>, a: seq<int>, b: seq<int>, axis: int)
    requires |e| == 6 && |a| == 6 && |b| == 6 && 0 <= axis < 3
    ensures Intersection(e, a, b)[2 * axis] == Max(Max(e[2 * axis], a[2 * axis]), b[2 * axis])
    ensures Intersection(e, a, b)[2 * axis + 1] == Min(Min(e[2 * axis + 1], a[2 * axis + 1]), b[2 * axis + 1])
  {
  }

  /** Clipping one more axis replaces its two bounds and nothing else. */
  lemma ClipAxesStep(e: seq<int>, a: seq<int>, b: seq<int>, axis: int)
    requires |e| == 6 && |a| == 6 && |b| == 6 && 0 <= axis < 3
    ensures ClipAxes(e, a, b, axis + 1)
      == ClipAxes(e, a, b, axis)[2 * axis := Intersection(e, a, b)[2 * axis]][2 * axis + 1 := Intersection(e, a, b)[2 * axis + 1]]
  {
  }

  /** The first axis on which the clipped extent is empty, or 3 when none is. */
  function FirstEmptyAxis(r: seq<int>): (axis: int)
    requires |r| == 6
    ensures 0 <= axis <= 3
    ensures axis == 3 <==> !IsEmpty(r)
    ensures forall k :: 0 <= k < axis ==> r[2 * k] <= r[2 * k + 1]
    ensures axis < 3 ==> r[2 * axis] > r[2 * axis + 1]
  {
    if r[0] > r[1] then 0 else if r[2] > r[3] then 1 else if r[4] > r[5] then 2 else 3
  }

  /** Raise the lower bound and lower the upper bound of one axis of the
      extent, in place, to those of both input extents. */
  method ClipAxis(extent: array<int>, inExt0: seq<int>, inExt1: seq<int>, axis: int)
    requires extent.Length == 6 && |inExt0| == 6 && |inExt1| == 6 && 0 <= axis < 3
    modifies extent
    ensures extent[..] == old(extent[..])[2 * axis := Max(Max(old(extent[2 * axis]), inExt0[2 * axis]), inExt1[2 * axis])]
                                         [2 * axis + 1 := Min(Min(old(extent[2 * axis + 1]), inExt0[2 * axis + 1]), inExt1[2 * axis + 1])]
  {
    var i, j := 2 * axis, 2 * axis + 1;
    extent[i] := if extent[i] > inExt0[i] then extent[i] else inExt0[i];
    extent[i] := if extent[i] > inExt1[i] then extent[i] else inExt1[i];
    extent[j] := if extent[j] < inExt0[j] then extent[j] else inExt0[j];
    extent[j] := if extent[j] < inExt1[j] then extent[j] else inExt1[j];
  }

  /** Clip the requested extent, in place, to both input extents, stopping at
      the first axis that becomes empty; reports whether anything is left. */
  method ClipExtent(extent: array<int>, inExt0: seq<int>, inExt1: seq<int>) returns (inside: bool)
    requires extent.Length == 6 && |inExt0| == 6 && |inExt1| == 6
    modifies extent
    ensures inside <==> !IsEmpty(Intersection(old(extent[..]), inExt0, inExt1))
    ensures inside ==> extent[..] == Intersection(old(extent[..]), inExt0, inExt1)
    ensures !inside ==> extent[..] == ClipAxes(old(extent[..]), inExt0, inExt1,
                                               FirstEmptyAxis(Intersection(old(extent[..]), inExt0, inExt1)) + 1)
  {
    ghost var requested := old(extent[..]);
    ghost var r := Intersection(requested, inExt0, inExt1);
    var axis := 0;
    while axis < 3
      invariant 0 <= axis <= 3
      invariant extent[..] == ClipAxes(requested, inExt0, inExt1, axis)
      invariant FirstEmptyAxis(r) >= axis
    {
      ClipAxis(extent, inExt0, inExt1, axis);
      assert extent[..] == ClipAxes(requested, inExt0, inExt1, axis + 1) by {
        IntersectionAxis(requested, inExt0, inExt1, axis);
        ClipAxesStep(requested, inExt0, inExt1, axis);
      }
      if extent[2 * axis] > extent[2 * axis + 1] {
        assert FirstEmptyAxis(r) == axis;
        return false;
      }
      axis := axis + 1;
    }
    assert extent[..] == r;
    return true;
  }

  // ------------------------------------------------------------- samples

  newtype uint8 = x: int | 0 <= x < 256

  /** The sample pairs a worker visits: both inputs unsigned char, or any
      other combination of scalar types, read as doubles. */
  datatype Samples =
    | UnsignedChar(bytes: seq<(uint8, uint8)>)
    | Converted(values: seq<(real, real)>)

  /** The samples as the doubles the general path works on. */
  function Values(s: Samples): (v: seq<(real, real)>)
    ensures s.Converted? ==> v == s.values
    ensures s.UnsignedChar? ==>
      |v| == |s.bytes| && forall i :: 0 <= i < |v| ==> v[i] == (s.bytes[i].0 as real, s.bytes[i].1 as real)
  {
    match s
    case Converted(values) => values
    case UnsignedChar(bytes) =>
      seq(|bytes|, i requires 0 <= i < |bytes| => (bytes[i].0 as real, bytes[i].1 as real))
  }

  /** The cell each 8-bit sample pair is counted in on the pre-scaled path. */
  function PreScaledOffsets(bytes: seq<(uint8, uint8)>, nx: int, ny: int): (o: seq<int>)
    requires 1 <= nx && 1 <= ny
    ensures |o| == |bytes| && CellsIn(o, nx * ny)
  {
    seq(|bytes|, i requires 0 <= i < |bytes| =>
      BinOffset(PreScaledBin(bytes[i].0 as int, nx), PreScaledBin(bytes[i].1 as int, ny), nx, ny))
  }

  /** The cell each sample pair is counted in on the general path. */
  function GeneralOffsets(values: seq<(real, real)>, origin: (real, real), spacing: (real, real), nx: int, ny: int): (o: seq<int>)
    requires 1 <= nx && 1 <= ny && spacing.0 != 0.0 && spacing.1 != 0.0
    ensures |o| == |values| && CellsIn(o, nx * ny)
  {
    seq(|values|, i requires 0 <= i < |values| =>
      BinOffset(GeneralBin(values[i].0, origin.0, spacing.0, nx), GeneralBin(values[i].1, origin.1, spacing.1, ny), nx, ny))
  }

  /** The cells a worker counts its samples in: the pre-scaled path when the
      bin geometry passed the fast-path test and both inputs are unsigned
      char, the general path otherwise. */
  function SampleOffsets(s: Samples, fastPathTest: bool, origin: (real, real), spacing: (real, real), nx: int, ny: int): (o: seq<int>)
    requires 1 <= nx && 1 <= ny && spacing.0 != 0.0 && spacing.1 != 0.0
    ensures CellsIn(o, nx * ny)
  {
    if fastPathTest && s.UnsignedChar? then PreScaledOffsets(s.bytes, nx, ny)
    else GeneralOffsets(Values(s), origin, spacing, nx, ny)
  }

  /** For the identity bin geometry (origin 0, spacing 1) the choice of path
      is invisible: both count every sample in the same cell. */
  lemma PathChoiceInvisible(s: Samples, nx: int, ny: int)
    requires 1 <= nx && 1 <= ny
    ensures SampleOffsets(s, true, (0.0, 0.0), (1.0, 1.0), nx, ny) == SampleOffsets(s, false, (0.0, 0.0), (1.0, 1.0), nx, ny)
  {
    if s.UnsignedChar? {
      var fast := PreScaledOffsets(s.bytes, nx, ny);
      var general := GeneralOffsets(Values(s), (0.0, 0.0), (1.0, 1.0), nx, ny);
      forall i | 0 <= i < |s.bytes| ensures fast[i] == general[i] {
        PreScaledMatchesGeneral(s.bytes[i].0 as int, nx);
        PreScaledMatchesGeneral(s.bytes[i].1 as int, ny);
      }
    }
  }

  /** The output image's point (ix, iy) sits at intensity
      (origin + ix*spacing) in the first image: exactly the intensity the
      general path bins into column ix. */
  lemma BinCenterBinsToItself(origin: real, spacing: real, n: int, ix: int)
    requires spacing != 0.0 && 0 <= ix < n
    ensures GeneralBin(origin + (ix as real) * spacing, origin, spacing, n) == ix
  {
    GeneralBinIsNearestBin(origin + (ix as real) * spacing, origin, spacing, n);
    assert (origin + (ix as real) * spacing - origin) / spacing == ix as real;
  }

  // ------------------------------------------------------ binning loops

  /** The 8-bit fast path: clamp each value to the last bin and count the
      pair in place.  The cell is addressed with row stride nx (see
      BinOffsetAsWritten for the stride the loop uses as written). */
  method ExecutePreScaled(hist: array<int>, bytes: seq<(uint8, uint8)>, nx: int, ny: int)
    requires 1 <= nx && 1 <= ny && hist.Length == nx * ny
    modifies hist
    ensures hist[..] == Tally(old(hist[..]), PreScaledOffsets(bytes, nx, ny))
  {
    ghost var offsets := PreScaledOffsets(bytes, nx, ny);
    var xmax, ymax := nx - 1, ny - 1;
    var i := 0;
    while i < |bytes|
      invariant 0 <= i <= |bytes|
      invariant hist[..] == Tally(old(hist[..]), offsets[..i])
    {
      var x := bytes[i].0 as int;
      var y := bytes[i].1 as int;
      x := if x < xmax then x else xmax;
      y := if y < ymax then y else ymax;
      RowInside(nx, y, ny);
      var cell := nx * y + x;
      assert cell == offsets[i];
      assert offsets[..i + 1][..i] == offsets[..i];
      hist[cell] := hist[cell] + 1;
      i := i + 1;
    }
    assert offsets[..|bytes|] == offsets;
  }

  /** The general path: bin each value of the pair (GeneralBin is the
      shift, scale, clamp and round of the loop body), then count the pair in
      place (row stride nx, as above). */
  method Execute(hist: array<int>, values: seq<(real, real)>, nx: int, ny: int, binOrigin: (real, real), binSpacing: (real, real))
    requires 1 <= nx && 1 <= ny && hist.Length == nx * ny
    requires binSpacing.0 != 0.0 && binSpacing.1 != 0.0
    modifies hist
    ensures hist[..] == Tally(old(hist[..]), GeneralOffsets(values, binOrigin, binSpacing, nx, ny))
  {
    ghost var offsets := GeneralOffsets(values, binOrigin, binSpacing, nx, ny);
    var i := 0;
    while i < |values|
      invariant 0 <= i <= |values|
      invariant hist[..] == Tally(old(hist[..]), offsets[..i])
    {
      var xi := GeneralBin(values[i].0, binOrigin.0, binSpacing.0, nx);
      var yi := GeneralBin(values[i].1, binOrigin.1, binSpacing.1, ny);
      RowInside(nx, yi, ny);
      var cell := nx * yi + xi;
      assert cell == offsets[i];
      assert offsets[..i + 1][..i] == offsets[..i];
      hist[cell] := hist[cell] + 1;
      i := i + 1;
    }
    assert offsets[..|values|] == offsets;
  }

  /** Copy columns outStart .. outEnd of one merged row into the output image
      at position `pos`. */
  method CopyRow(xyHist: array<int>, out: array<int>, pos: int, outStart: int, outEnd: int)
    requires 0 <= outStart <= outEnd < xyHist.Length && xyHist != out
    requires 0 <= pos && pos + (outEnd - outStart + 1) <= out.Length
    modifies out
    ensures out[..] == old(out[..pos]) + xyHist[outStart..outEnd + 1] + old(out[pos + (outEnd - outStart + 1)..])
  {
    var n := outEnd - outStart + 1;
    var i := 0;
    while i < n
      invariant 0 <= i <= n
      invariant out[..pos] == old(out[..pos])
      invariant out[pos..pos + i] == xyHist[outStart..outStart + i]
      invariant out[pos + n..] == old(out[pos + n..])
    {
      out[pos + i] := xyHist[outStart + i];
      i := i + 1;
      assert out[pos..pos + i] == out[pos..pos + i - 1] + [xyHist[outStart + i - 1]];
    }
    assert out[..] == out[..pos] + out[pos..pos + n] + out[pos + n..];
  }

  /** Add the `xyHist.Length` counts of worker buffer `d` starting at
      `start` to `xyHist`, and their total to `a`. */
  method AddRow(xyHist: array<int>, d: array<int>, start: int, a: int) returns (total: int)
    requires xyHist != d && 0 <= start && start + xyHist.Length <= d.Length
    modifies xyHist
    ensures xyHist[..] == Add(old(xyHist[..]), d[start .. start + xyHist.Length])
    ensures total == a + Sum(d[start .. start + xyHist.Length])
  {
    total := a;
    var ix := 0;
    while ix < xyHist.Length
      invariant 0 <= ix <= xyHist.Length
      invariant forall k :: 0 <= k < ix ==> xyHist[k] == old(xyHist[k]) + d[start + k]
      invariant forall k :: ix <= k < xyHist.Length ==> xyHist[k] == old(xyHist[k])
      invariant total == a + Sum(d[start .. start + ix])
    {
      var c := d[start + ix];
      xyHist[ix] := xyHist[ix] + c;
      total := total + c;
      assert d[start .. start + ix + 1][..ix] == d[start .. start + ix];
      ix := ix + 1;
    }
  }

  /** Add row `iy` of one worker buffer `d`, holding the histogram `h`, into
      `xyHist`, keeping `a` the total of `xyHist`. */
  method MergeWorker(xyHist: array<int>, d: array<int>, ghost h: seq<int>, nx: nat, ny: nat, iy: nat, a: int)
    returns (total: int)
    requires xyHist.Length == nx && |h| == nx * ny && iy < ny
    requires d != xyHist && d[..] == h && a == Sum(xyHist[..])
    modifies xyHist
    ensures xyHist[..] == Add(old(xyHist[..]), RowOf(h, nx, ny, iy))
    ensures total == Sum(xyHist[..])
  {
    ghost var prev := xyHist[..];
    RowInside(nx, iy, ny);
    assert d[nx * iy .. nx * iy + nx] == RowOf(h, nx, ny, iy);
    total := AddRow(xyHist, d, nx * iy, a);
    SumAdd(prev, RowOf(h, nx, ny, iy));
  }

  /** Sum row `iy` of every worker buffer into `xyHist`, which starts out
      zero; returns the total of the merged row. */
  method MergeWorkers(xyHist: array<int>, td: seq<Option<array<int>>>, ghost hs: seq<Option<seq<int>>>,
                      nx: nat, ny: nat, iy: nat) returns (a: int)
    requires |td| == |hs| && Sized(hs, nx * ny) && iy < ny
    requires xyHist.Length == nx && xyHist[..] == Zeros(nx)
    requires forall v :: 0 <= v < |td| ==> td[v].Some? == hs[v].Some?
    requires forall v :: 0 <= v < |td| && td[v].Some? ==> td[v].value != xyHist && td[v].value[..] == hs[v].value
    modifies xyHist
    ensures xyHist[..] == RowOf(Merged(hs, nx * ny), nx, ny, iy)
    ensures a == Sum(xyHist[..])
  {
    SumZeros(nx);
    MergedNoWorkersRow(hs, nx, ny, iy);
    a := 0;
    var w := 0;
    while w < |td|
      invariant 0 <= w <= |td|
      invariant xyHist[..] == MergedPrefixRow(hs, nx, ny, iy, w)
      invariant a == Sum(xyHist[..])
    {
      MergedRowStep(hs, nx, ny, iy, w);
      if td[w].Some? {
        a := MergeWorker(xyHist, td[w].value, hs[w].value, nx, ny, iy, a);
      }
      w := w + 1;
    }
  }

  /** Add a merged row to the first image's histogram `xHist` and its
      c*log(c) terms to the joint entropy sum. */
  method AccumulateRow(xyHist: array<int>, xHist: array<int>, xyEntropy: real, ln: real -> real) returns (sum: real)
    requires xyHist.Length == xHist.Length && xyHist != xHist
    modifies xHist
    ensures xHist[..] == Add(old(xHist[..]), xyHist[..])
    ensures sum == xyEntropy + SumXLogX(xyHist[..], ln)
  {
    ghost var row := xyHist[..];
    sum := xyEntropy;
    var ix := 0;
    while ix < xHist.Length
      invariant 0 <= ix <= xHist.Length && xyHist[..] == row
      invariant forall k :: 0 <= k < ix ==> xHist[k] == old(xHist[k]) + row[k]
      invariant forall k :: ix <= k < xHist.Length ==> xHist[k] == old(xHist[k])
      invariant sum == xyEntropy + SumXLogX(row[..ix], ln)
    {
      var c := xyHist[ix];
      xHist[ix] := xHist[ix] + c;
      if c > 0 {
        sum := sum + XLogX(c, ln);
      }
      assert row[..ix + 1][..ix] == row[..ix];
      ix := ix + 1;
    }
    assert row[..xHist.Length] == row;
  }

  /** The number of samples, the total of `xHist`, and the c*log(c) sum of
      the first image's histogram. */
  method CountSamples(xHist: array<int>, ln: real -> real) returns (count: int, xEntropy: real)
    ensures count == Sum(xHist[..])
    ensures xEntropy == SumXLogX(xHist[..], ln)
  {
    count, xEntropy := 0, 0.0;
    var ix := 0;
    while ix < xHist.Length
      invariant 0 <= ix <= xHist.Length
      invariant count == Sum(xHist[..ix])
      invariant xEntropy == SumXLogX(xHist[..ix], ln)
    {
      var b := xHist[ix];
      count := count + b;
      if b > 0 {
        xEntropy := xEntropy + XLogX(b, ln);
      }
      assert xHist[..ix + 1][..ix] == xHist[..ix];
      ix := ix + 1;
    }
    assert xHist[..xHist.Length] == xHist[..];
  }

  /** MI and NMI from the sample count and the three c*log(c) sums of the
      reduction: MI = Hx + Hy - Hxy and NMI = (Hx + Hy) / Hxy with
      H = -S/count + log(count), or MI = 0 and NMI = 1 without samples. */
  method MetricsFromSums(count: int, xSum: real, ySum: real, xySum: real, ln: real -> real,
                         ghost m: seq<int>, nx: nat, ny: nat)
    returns (mi: real, nmi: Ratio)
    requires |m| == nx * ny
    requires count == Sum(ColumnTotals(m, nx, ny))
    requires xSum == SumXLogX(ColumnTotals(m, nx, ny), ln)
    requires ySum == SumXLogX(RowTotals(m, nx, ny), ln)
    requires xySum == SumXLogX(m, ln)
    ensures Metrics(mi, nmi) == MetricsOf(m, nx, ny, ln)
  {
    mi, nmi := 0.0, Finite(1.0);
    if count != 0 {
      var dc := count as real;
      var ldc := ln(dc);
      var xEntropy := -xSum / dc + ldc;
      var yEntropy := -ySum / dc + ldc;
      var xyEntropy := -xySum / dc + ldc;
      mi := xEntropy + yEntropy - xyEntropy;
      nmi := if xyEntropy != 0.0 then Finite((xEntropy + yEntropy) / xyEntropy) else NonFinite;
    }
  }

  // ------------------------------------------------------------ the filter

  /** Row `iy` of the merged histogram: clear `xyHist`, then add row `iy`
      of every worker buffer to it; returns the row's total. */
  method MergeRow(xyHist: array<int>, td: seq<Option<array<int>>>, ghost hs: seq<Option<seq<int>>>,
                  nx: nat, ny: nat, iy: nat) returns (a: int)
    requires |td| == |hs| && Sized(hs, nx * ny) && iy < ny && xyHist.Length == nx
    requires forall v :: 0 <= v < |td| ==> td[v].Some? == hs[v].Some?
    requires forall v :: 0 <= v < |td| && td[v].Some? ==> td[v].value != xyHist && td[v].value[..] == hs[v].value
    modifies xyHist
    ensures xyHist[..] == RowOf(Merged(hs, nx * ny), nx, ny, iy)
    ensures a == Sum(xyHist[..])
  {
    var ix := 0;
    while ix < nx
      invariant 0 <= ix <= nx
      invariant forall k :: 0 <= k < ix ==> xyHist[k] == 0
    {
      xyHist[ix] := 0;
      ix := ix + 1;
    }
    assert xyHist[..] == Zeros(nx);
    a := MergeWorkers(xyHist, td, hs, nx, ny, iy);
  }

  /** State of the reduction after its first `iy` rows: `xHist` holds the
      column totals, the two entropy sums cover those rows, and the output
      image holds their part of the update extent `ue`. */
  ghost predicate RowsDone(m: seq<int>, nx: nat, ue: seq<int>, iy: nat, xHist: seq<int>, out: seq<int>,
                           pos: int, yEntropy: real, xyEntropy: real, ln: real -> real)
  {
    && |ue| == 6 && ColumnsInside(ue, nx) && nx * iy <= |m|
    && xHist == ColumnTotals(m, nx, iy)
    && yEntropy == SumXLogX(RowTotals(m, nx, iy), ln)
    && xyEntropy == SumXLogX(m[..nx * iy], ln)
    && pos == |OutputRows(m, nx, ue, iy)| <= |out|
    && out[..pos] == OutputRows(m, nx, ue, iy)
  }

  /** One more row keeps RowsDone: its cells are added to the column totals,
      its total's c*log(c) to the y-entropy sum, its cells' c*log(c) to the
      joint sum, and its part of the update extent to the output image. */
  lemma RowsDoneStep(m: seq<int>, nx: nat, ny: nat, ue: seq<int>, iy: nat, xHist: seq<int>, out: seq<int>,
                     pos: int, yEntropy: real, xyEntropy: real, ln: real -> real, out': seq<int>, pos': int)
    requires |m| == nx * ny && iy < ny
    requires RowsDone(m, nx, ue, iy, xHist, out, pos, yEntropy, xyEntropy, ln)
    requires nx * (iy + 1) <= |m| && pos' == |OutputRows(m, nx, ue, iy + 1)| <= |out'|
    requires out'[..pos'] == OutputRows(m, nx, ue, iy + 1)
    ensures RowsDone(m, nx, ue, iy + 1, Add(xHist, RowOf(m, nx, ny, iy)), out', pos',
                     yEntropy + XLogX(Sum(RowOf(m, nx, ny, iy)), ln),
                     xyEntropy + SumXLogX(RowOf(m, nx, ny, iy), ln), ln)
  {
    RowStep(m, nx, ny, iy, ln);
  }

  /** Copy the part of merged row `iy` inside the update extent to the
      output image, if the row lies inside it. */
  method CopyRowIfInside(xyHist: array<int>, out: array<int>, ghost m: seq<int>, nx: nat, ny: nat,
                         ue: seq<int>, iy: nat, pos: int) returns (next: int)
    requires |m| == nx * ny && iy < ny && |ue| == 6 && ColumnsInside(ue, nx)
    requires ue[2] <= ue[3] ==> 0 <= ue[2] && ue[3] < ny
    requires out.Length == OutputLength(ue) && xyHist != out
    requires xyHist[..] == RowOf(m, nx, ny, iy)
    requires nx * iy <= |m| && pos == |OutputRows(m, nx, ue, iy)| <= out.Length && out[..pos] == OutputRows(m, nx, ue, iy)
    modifies out
    ensures nx * (iy + 1) <= |m|
    ensures next == |OutputRows(m, nx, ue, iy + 1)| <= out.Length
    ensures out[..next] == OutputRows(m, nx, ue, iy + 1)
  {
    RowInside(nx, iy, ny);
    OutputRowsNext(m, nx, ue, iy);
    OutputRowsFill(m, nx, ue, ny);
    OutputRowsGrow(m, nx, ue, iy + 1, ny);
    var outStart, outEnd := ue[0], ue[1];
    if iy < ue[2] || iy > ue[3] {
      outStart, outEnd := 0, -1;
    }
    next := pos;
    if outStart <= outEnd {
      assert xyHist[outStart .. outEnd + 1] == Row(m, nx, iy)[ue[0] .. ue[1] + 1];
      CopyRow(xyHist, out, pos, outStart, outEnd);
      next := pos + (outEnd - outStart + 1);
      assert out[..next] == OutputRows(m, nx, ue, iy + 1);
    }
  }

  /** One row of the reduction: merge it, copy it to the output image, and
      add it to both entropy sums and to `xHist`. */
  method ReduceRow(xyHist: array<int>, xHist: array<int>, out: array<int>,
                   td: seq<Option<array<int>>>, ghost hs: seq<Option<seq<int>>>, ghost m: seq<int>,
                   nx: nat, ny: nat, ue: seq<int>, iy: nat, pos: int, yEntropy: real, xyEntropy: real,
                   ln: real -> real)
    returns (pos': int, yEntropy': real, xyEntropy': real)
    requires |td| == |hs| && Sized(hs, nx * ny) && m == Merged(hs, nx * ny) && iy < ny
    requires xyHist.Length == nx && xHist.Length == nx
    requires xyHist != xHist && xyHist != out && xHist != out
    requires forall v :: 0 <= v < |td| ==> td[v].Some? == hs[v].Some?
    requires forall v :: 0 <= v < |td| && td[v].Some? ==> td[v].value != xyHist && td[v].value[..] == hs[v].value
    requires |ue| == 6 && (ue[2] <= ue[3] ==> 0 <= ue[2] && ue[3] < ny)
    requires out.Length == OutputLength(ue)
    requires RowsDone(m, nx, ue, iy, xHist[..], out[..], pos, yEntropy, xyEntropy, ln)
    modifies xyHist, xHist, out
    ensures RowsDone(m, nx, ue, iy + 1, xHist[..], out[..], pos', yEntropy', xyEntropy', ln)
  {
    ghost var xs, os := xHist[..], out[..];
    var a := MergeRow(xyHist, td, hs, nx, ny, iy);
    ghost var row := xyHist[..];
    assert xHist[..] == xs && out[..] == os;
    pos' := CopyRowIfInside(xyHist, out, m, nx, ny, ue, iy, pos);
    assert xyHist[..] == row && xHist[..] == xs;

    // entropy of the second image
    yEntropy' := yEntropy + XLogX(a, ln);

    // joint entropy and the histogram of the first image
    xyEntropy' := AccumulateRow(xyHist, xHist, xyEntropy, ln);
    RowsDoneStep(m, nx, ny, ue, iy, xs, os, pos, yEntropy, xyEntropy, ln, out[..], pos');
  }

  /** The row loop of the reduction: `xHist` is cleared, then every row of
      the merged histogram is reduced in turn. Afterwards `xHist` holds the
      merged histogram's column totals, the two sums its row-total and joint
      c*log(c) sums, and `out` the update extent's part of it. */
  method ReduceRows(xyHist: array<int>, xHist: array<int>, out: array<int>,
                    td: seq<Option<array<int>>>, ghost hs: seq<Option<seq<int>>>, ghost m: seq<int>,
                    nx: nat, ny: nat, ue: seq<int>, ln: real -> real)
    returns (yEntropy: real, xyEntropy: real)
    requires |td| == |hs| && Sized(hs, nx * ny) && m == Merged(hs, nx * ny)
    requires xyHist.Length == nx && xHist.Length == nx
    requires xyHist != xHist && xyHist != out && xHist != out
    requires forall v :: 0 <= v < |td| ==> td[v].Some? == hs[v].Some?
    requires forall v :: 0 <= v < |td| && td[v].Some? ==>
               td[v].value != xyHist && td[v].value != xHist && td[v].value != out && td[v].value[..] == hs[v].value
    requires |ue| == 6 && ColumnsInside(ue, nx) && (ue[2] <= ue[3] ==> 0 <= ue[2] && ue[3] < ny)
    requires out.Length == OutputLength(ue)
    modifies xyHist, xHist, out
    ensures xHist[..] == ColumnTotals(m, nx, ny)
    ensures yEntropy == SumXLogX(RowTotals(m, nx, ny), ln)
    ensures xyEntropy == SumXLogX(m, ln)
    ensures out[..] == OutputRows(m, nx, ue, ny)
  {
    OutputRowsFill(m, nx, ue, ny);
    var ix := 0;
    while ix < nx
      modifies xHist
      invariant 0 <= ix <= nx
      invariant forall k :: 0 <= k < ix ==> xHist[k] == 0
    {
      xHist[ix] := 0;
      ix := ix + 1;
    }
    assert xHist[..] == ColumnTotals(m, nx, 0);

    yEntropy, xyEntropy := 0.0, 0.0;
    var pos := 0;
    var iy := 0;
    while iy < ny
      invariant 0 <= iy <= ny
      invariant forall v :: 0 <= v < |td| && td[v].Some? ==> td[v].value[..] == hs[v].value
      invariant RowsDone(m, nx, ue, iy, xHist[..], out[..], pos, yEntropy, xyEntropy, ln)
    {
      pos, yEntropy, xyEntropy := ReduceRow(xyHist, xHist, out, td, hs, m, nx, ny, ue, iy, pos, yEntropy, xyEntropy, ln);
      iy := iy + 1;
    }
    assert m[..nx * ny] == m;
  }

  /** Reduce the worker buffers `td`: the update extent's part of the merged
      histogram goes to `out`, and its mutual information and normalized
      mutual information are returned. */
  method ReduceHistograms(out: array<int>, td: seq<Option<array<int>>>, ghost hs: seq<Option<seq<int>>>,
                          nx: nat, ny: nat, ue: seq<int>, ln: real -> real)
    returns (mi: real, nmi: Ratio)
    requires |td| == |hs| && Sized(hs, nx * ny)
    requires forall v :: 0 <= v < |td| ==> td[v].Some? == hs[v].Some?
    requires forall v :: 0 <= v < |td| && td[v].Some? ==> td[v].value != out && td[v].value[..] == hs[v].value
    requires |ue| == 6 && ColumnsInside(ue, nx) && (ue[2] <= ue[3] ==> 0 <= ue[2] && ue[3] < ny)
    requires out.Length == OutputLength(ue)
    modifies out
    ensures out[..] == OutputRows(Merged(hs, nx * ny), nx, ue, ny)
    ensures Metrics(mi, nmi) == MetricsOf(Merged(hs, nx * ny), nx, ny, ln)
  {
    ghost var m := Merged(hs, nx * ny);
    var xyHist := new int[nx];
    var xHist := new int[nx];
    var yEntropy, xyEntropy := ReduceRows(xyHist, xHist, out, td, hs, m, nx, ny, ue, ln);
    var count, xEntropy := CountSamples(xHist, ln);
    mi, nmi := MetricsFromSums(count, xEntropy, yEntropy, xyEntropy, ln, m, nx, ny);
  }

  /** The body of one worker: clip the requested extent to both inputs and,
      if anything is left, count every sample pair in `hist`. */
  method CountSamplesInExtent(hist: array<int>, extent: array<int>, inExt0: seq<int>, inExt1: seq<int>,
                              samples: Samples, fastPathTest: bool,
                              binOrigin: (real, real), binSpacing: (real, real), nx: int, ny: int)
    requires 1 <= nx && 1 <= ny && hist.Length == nx * ny && hist != extent
    requires extent.Length == 6 && |inExt0| == 6 && |inExt1| == 6
    requires binSpacing.0 != 0.0 && binSpacing.1 != 0.0
    modifies hist, extent
    ensures hist[..] == Tally(old(hist[..]),
              if IsEmpty(Intersection(old(extent[..]), inExt0, inExt1)) then []
              else SampleOffsets(samples, fastPathTest, binOrigin, binSpacing, nx, ny))
  {
    var inside := ClipExtent(extent, inExt0, inExt1);
    if inside {
      if fastPathTest && samples.UnsignedChar? {
        ExecutePreScaled(hist, samples.bytes, nx, ny);
      } else {
        Execute(hist, Values(samples), nx, ny, binOrigin, binSpacing);
      }
    } else {
      assert hist[..] == Tally(old(hist[..]), []);
    }
  }

  /** Whole extent, origin and spacing of the output image, and its
      scalar type and number of components. */
  datatype OutputInformation = OutputInformation(
    wholeExtent: seq<int>, origin: (real, real, real), spacing: (real, real, real),
    scalarType: int, components: int)

  class ImageMutualInformation {
    var numberOfBins: (int, int)
    var binOrigin: (real, real)
    var binSpacing: (real, real)
    var outputScalarType: int
    var mutualInformation: real
    var normalizedMutualInformation: Ratio
    /** One entry per worker thread: its joint histogram, or None while it
        has not binned anything (a null Data buffer).  Empty while no
        thread-local storage exists (ThreadData == 0). */
    var threadData: seq<Option<array<int>>>

    /** Cells of one joint histogram. */
    function Cells(): int
      reads this
    {
      numberOfBins.0 * numberOfBins.1
    }

    /** The worker buffers currently allocated. */
    ghost function Buffers(): set<array<int>>
      reads this
    {
      set w | 0 <= w < |threadData| && threadData[w].Some? :: threadData[w].value
    }

    /** At least one bin per axis; every allocated buffer holds one count per
        cell, and no two workers share a buffer. */
    ghost predicate Valid()
      reads this
    {
      && 1 <= numberOfBins.0 && 1 <= numberOfBins.1
      && (forall w :: 0 <= w < |threadData| && threadData[w].Some? ==> threadData[w].value.Length == Cells())
      && (forall v, w :: 0 <= v < w < |threadData| && threadData[v].Some? && threadData[w].Some? ==>
            threadData[v].value != threadData[w].value)
    }

    /** The worker histograms as values. */
    ghost function Histograms(): (hs: seq<Option<seq<int>>>)
      reads this, Buffers()
      ensures |hs| == |threadData|
      ensures forall w :: 0 <= w < |hs| ==> hs[w].Some? == threadData[w].Some?
      ensures Valid() ==> Sized(hs, Cells())
    {
      seq(|threadData|, w requires 0 <= w < |threadData| reads this, Buffers() =>
        match threadData[w]
        case None => None
        case Some(d) => Some(d[..]))
    }

    /** 64 by 64 bins with origin 0 and spacing 1, float output, both
        metrics 0 and no thread-local storage. */
    constructor ()
      ensures numberOfBins == (64, 64) && binOrigin == (0.0, 0.0) && binSpacing == (1.0, 1.0)
      ensures outputScalarType == VtkFloat
      ensures mutualInformation == 0.0 && normalizedMutualInformation == Finite(0.0)
      ensures threadData == [] && Valid()
    {
      numberOfBins := (64, 64);
      binOrigin := (0.0, 0.0);
      binSpacing := (1.0, 1.0);
      outputScalarType := VtkFloat;
      mutualInformation := 0.0;
      normalizedMutualInformation := Finite(0.0);
      threadData := [];
    }

    /** The output image is the joint histogram: one point per bin, placed
        at the bin's intensity. */
    function RequestInformation(): (info: OutputInformation)
      reads this
      ensures |info.wholeExtent| == 6
      ensures forall p :: |p| == 3 ==>
        (Contains(info.wholeExtent, p) <==> 0 <= p[0] < numberOfBins.0 && 0 <= p[1] < numberOfBins.1 && p[2] == 0)
      ensures info.origin == (binOrigin.0, binOrigin.1, 0.0) && info.spacing == (binSpacing.0, binSpacing.1, 1.0)
      ensures info.scalarType == outputScalarType && info.components == 1
    {
      OutputInformation(
        [0, numberOfBins.0 - 1, 0, numberOfBins.1 - 1, 0, 0],
        (binOrigin.0, binOrigin.1, 0.0), (binSpacing.0, binSpacing.1, 1.0),
        outputScalarType, 1)
    }

    /** Thread-local storage for `threads` workers, none of them with a
        buffer yet. */
    method CreateThreadData(threads: nat)
      requires Valid()
      modifies this`threadData
      ensures Valid() && threadData == seq(threads, _ => None)
      ensures Histograms() == seq(threads, _ => None)
    {
      threadData := seq(threads, _ => None);
    }

    /** Drop the thread-local storage after the reduction (ThreadData = 0). */
    method ReleaseThreadData()
      requires Valid()
      modifies this`threadData
      ensures Valid() && threadData == [] && Histograms() == []
    {
      threadData := [];
    }

    /** The buffer of worker `threadId`, allocated and zero-filled on first
        use; an existing buffer is handed back untouched. */
    method LocalHistogram(threadId: int) returns (buffer: array<int>)
      requires Valid() && 0 <= threadId < |threadData|
      modifies this`threadData
      ensures Valid() && threadData == old(threadData)[threadId := Some(buffer)]
      ensures old(threadData[threadId]).Some? ==> buffer == old(threadData[threadId]).value
      ensures old(threadData[threadId]).None? ==> fresh(buffer) && buffer[..] == Zeros(Cells())
      ensures buffer[..] == WorkerStart(old(Histograms())[threadId], Cells())
      ensures forall w :: 0 <= w < |threadData| && w != threadId && threadData[w].Some? ==> threadData[w].value != buffer
    {
      if threadData[threadId].None? {
        var outCount := numberOfBins.0 * numberOfBins.1;
        buffer := new int[outCount];
        var i := 0;
        while i < outCount
          modifies buffer
          invariant 0 <= i <= outCount
          invariant forall k :: 0 <= k < i ==> buffer[k] == 0
        {
          buffer[i] := 0;
          i := i + 1;
        }
        assert buffer[..] == Zeros(outCount);
        threadData := threadData[threadId := Some(buffer)];
      } else {
        buffer := threadData[threadId].value;
        assert threadData == threadData[threadId := Some(buffer)];
      }
    }

    /** One worker's share: make sure it has a zero-filled buffer, clip the
        requested extent to both inputs, and if anything is left count every
        sample pair in the buffer. */
    method ThreadedRequestData(extent: array<int>, inExt0: seq<int>, inExt1: seq<int>,
                               samples: Samples, fastPathTest: bool, threadId: int)
      requires Valid() && 0 <= threadId < |threadData|
      requires extent.Length == 6 && |inExt0| == 6 && |inExt1| == 6 && extent !in Buffers()
      requires binSpacing.0 != 0.0 && binSpacing.1 != 0.0
      modifies this`threadData, Buffers(), extent
      ensures Valid() && |threadData| == |old(threadData)|
      ensures forall w :: 0 <= w < |threadData| && w != threadId ==> threadData[w] == old(threadData[w])
      ensures old(threadData[threadId]).Some? ==> threadData[threadId] == old(threadData[threadId])
      ensures old(threadData[threadId]).None? ==> threadData[threadId].Some? && fresh(threadData[threadId].value)
      ensures Histograms() == old(Histograms())[threadId := Some(Tally(
                WorkerStart(old(Histograms())[threadId], Cells()),
                if IsEmpty(Intersection(old(extent[..]), inExt0, inExt1)) then []
                else SampleOffsets(samples, fastPathTest, binOrigin, binSpacing, numberOfBins.0, numberOfBins.1)))]
    {
      ghost var before := Histograms();
      var buffer := LocalHistogram(threadId);
      ghost var start := buffer[..];
      ghost var offsets := if IsEmpty(Intersection(extent[..], inExt0, inExt1)) then []
        else SampleOffsets(samples, fastPathTest, binOrigin, binSpacing, numberOfBins.0, numberOfBins.1);
      CountSamplesInExtent(buffer, extent, inExt0, inExt1, samples, fastPathTest,
                           binOrigin, binSpacing, numberOfBins.0, numberOfBins.1);
      assert buffer[..] == Tally(start, offsets);
      ghost var after := Histograms();
      ghost var expected := before[threadId := Some(Tally(start, offsets))];
      forall w | 0 <= w < |threadData|
        ensures after[w] == expected[w]
      {
        if w != threadId && threadData[w].Some? {
          var d := threadData[w].value;
          assert d == old(threadData[w]).value && d in old(Buffers());
          assert d != extent;
        }
      }
      assert after == expected;
    }

    /** Free every worker buffer. */
    method FreeThreadData()
      requires Valid()
      modifies this`threadData
      ensures Valid() && |threadData| == |old(threadData)|
      ensures forall w :: 0 <= w < |threadData| ==> threadData[w] == None
    {
      var w := 0;
      while w < |threadData|
        invariant 0 <= w <= |threadData| == |old(threadData)|
        invariant forall v :: 0 <= v < w ==> threadData[v] == None
        invariant forall v :: w <= v < |threadData| ==> threadData[v] == old(threadData[v])
      {
        threadData := threadData[w := None];
        w := w + 1;
      }
    }

    /** Merge the worker histograms row by row, copy the rows of the update
        extent `ue` into the output image `out`, free every worker buffer and
        set the mutual information and the normalized mutual information.
        `ln` is the natural logarithm. */
    method ReduceRequestData(ue: seq<int>, out: array<int>, ln: real -> real)
      requires Valid() && |ue| == 6
      requires ColumnsInside(ue, numberOfBins.0)
      requires ue[2] <= ue[3] ==> 0 <= ue[2] && ue[3] < numberOfBins.1
      requires out.Length == OutputLength(ue) && out !in Buffers()
      modifies this`threadData, this`mutualInformation, this`normalizedMutualInformation, out
      ensures Valid() && |threadData| == |old(threadData)|
      ensures forall w :: 0 <= w < |threadData| ==> threadData[w] == None
      ensures out[..] == OutputRows(Merged(old(Histograms()), Cells()), numberOfBins.0, ue, numberOfBins.1)
      ensures Metrics(mutualInformation, normalizedMutualInformation)
           == MetricsOf(Merged(old(Histograms()), Cells()), numberOfBins.0, numberOfBins.1, ln)
    {
      var nx, ny := numberOfBins.0, numberOfBins.1;
      var td := threadData;
      ghost var hs := Histograms();
      forall w | 0 <= w < |td| && td[w].Some?
        ensures td[w].value != out && hs[w].Some? && td[w].value[..] == hs[w].value
      {
        assert td[w].value in Buffers();
      }
      var mi, nmi := ReduceHistograms(out, td, hs, nx, ny, ue, ln);
      FreeThreadData();
      mutualInformation := mi;
      normalizedMutualInformation := nmi;
    }
  }
}
