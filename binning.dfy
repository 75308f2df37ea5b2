/** How vtkImageMutualInformation turns one pair of sample intensities into a
    cell of a worker histogram: the 8-bit pre-scaled path, the general
    shift-scale-clamp-round path, and the offset of the cell in the buffer. */
module Binning {
  import opened Histogram

  /** Offset of bin (xi, yi) in a worker histogram with nx cells per row.
      This is the layout the reduction reads back (row stride nx); the
      binning loops as written use stride ny instead, see
      BinOffsetAsWritten. */
  function BinOffset(xi: int, yi: int, nx: int, ny: int): (o: int)
    requires 0 <= xi < nx && 0 <= yi < ny
    ensures 0 <= o < nx * ny
  {
    RowInside(nx, yi, ny);
    nx * yi + xi
  }

  /** Two different bins never share a cell. */
  lemma BinOffsetInjective(x1: int, y1: int, x2: int, y2: int, nx: int, ny: int)
    requires 0 <= x1 < nx && 0 <= y1 < ny && 0 <= x2 < nx && 0 <= y2 < ny
    requires BinOffset(x1, y1, nx, ny) == BinOffset(x2, y2, nx, ny)
    ensures x1 == x2 && y1 == y2
  {
    if y1 != y2 {
      var lo, hi := if y1 < y2 then y1 else y2, if y1 < y2 then y2 else y1;
      assert nx * (lo + 1) <= nx * hi by { MultiplyMonotone(lo + 1, hi, nx); }
    }
  }

  /** The offset the two binning loops compute, `yi * numBins[1] + xi`,
      although the buffer is allocated and read with row stride numBins[0]. */
  function BinOffsetAsWritten(xi: int, yi: int, nx: int, ny: int): (o: int)
    requires 0 <= xi < nx && 0 <= yi < ny
    ensures nx == ny ==> o == BinOffset(xi, yi, nx, ny)
  {
    ny * yi + xi
  }

  /** With fewer columns than rows, the sample in the last bin is written
      at or past the end of the nx*ny-cell worker buffer. */
  lemma AsWrittenOffsetOverruns(nx: int, ny: int)
    requires 1 <= nx < ny
    ensures BinOffsetAsWritten(nx - 1, ny - 1, nx, ny) >= nx * ny
  {
    assert ny * (ny - 1) + nx - 1 - nx * ny == ny * (ny - nx - 1) + nx - 1;
    assert ny * (ny - nx - 1) >= 0 by { MultiplyMonotone(0, ny - nx - 1, ny); }
  }

  /** With more columns than rows, the sample in bin (0, 1) is counted by the
      reduction as the sample of bin (ny, 0). */
  lemma AsWrittenOffsetMisfiles(nx: int, ny: int)
    requires 2 <= ny < nx
    ensures BinOffsetAsWritten(0, 1, nx, ny) == BinOffset(ny, 0, nx, ny)
  {
  }

  /** Bin of an 8-bit sample on the pre-scaled path: the value itself, with
      every value past the last bin put in the last bin. */
  function PreScaledBin(v: int, n: int): (b: int)
    requires 0 <= v && 1 <= n
    ensures 0 <= b < n
    ensures b <= v && (b < v ==> b == n - 1)
  {
    if v < n - 1 then v else n - 1
  }

  /** static_cast<int> of a double: truncation toward zero. */
  function TruncateToInt(r: real): (i: int)
  {
    if r >= 0.0 then r.Floor else -((-r).Floor)
  }

  /** Bin of a sample on the general path: shift by minus the bin origin,
      scale by the inverse bin spacing, clamp to [0, n - 1], then round by
      adding 0.5 and truncating. */
  function GeneralBin(v: real, origin: real, spacing: real, n: int): (b: int)
    requires spacing != 0.0 && 1 <= n
    ensures 0 <= b < n
  {
    var x := (v + -origin) * (1.0 / spacing);
    var above := if x > 0.0 then x else 0.0;
    var clamped := if above < (n - 1) as real then above else (n - 1) as real;
    TruncateToInt(clamped + 0.5)
  }

  /** Nearest integer, halves rounded up. */
  function RoundHalfUp(x: real): int
  {
    (x + 0.5).Floor
  }

  function Clamp(i: int, lo: int, hi: int): int
    requires lo <= hi
  {
    if i < lo then lo else if i > hi then hi else i
  }

  /** Clamping before rounding, as the source does, gives the nearest bin of
      (v - origin) / spacing, clamped to the histogram. */
  lemma GeneralBinIsNearestBin(v: real, origin: real, spacing: real, n: int)
    requires spacing != 0.0 && 1 <= n
    ensures GeneralBin(v, origin, spacing, n) == Clamp(RoundHalfUp((v - origin) / spacing), 0, n - 1)
  {
    var x := (v + -origin) * (1.0 / spacing);
    assert x == (v - origin) / spacing;
  }

  /** Dividing by a positive number keeps the order. */
  lemma DivideMonotone(a: real, b: real, s: real)
    requires a <= b && 0.0 < s
    ensures a / s <= b / s
  {
    assert b / s - a / s == (b - a) / s;
  }

  /** With positive spacing, a larger intensity never falls in a lower bin. */
  lemma GeneralBinMonotonic(v1: real, v2: real, origin: real, spacing: real, n: int)
    requires 0.0 < spacing && 1 <= n && v1 <= v2
    ensures GeneralBin(v1, origin, spacing, n) <= GeneralBin(v2, origin, spacing, n)
  {
    GeneralBinIsNearestBin(v1, origin, spacing, n);
    GeneralBinIsNearestBin(v2, origin, spacing, n);
    var x1, x2 := (v1 - origin) / spacing, (v2 - origin) / spacing;
    assert x1 <= x2 by { DivideMonotone(v1 - origin, v2 - origin, spacing); }
    assert RoundHalfUp(x1) <= RoundHalfUp(x2);
  }

  /** With bin origin 0 and spacing 1, the general path bins an 8-bit value
      exactly as the pre-scaled path does. */
  lemma PreScaledMatchesGeneral(v: int, n: int)
    requires 0 <= v < 256 && 1 <= n
    ensures GeneralBin(v as real, 0.0, 1.0, n) == PreScaledBin(v, n)
  {
    GeneralBinIsNearestBin(v as real, 0.0, 1.0, n);
  }
}
