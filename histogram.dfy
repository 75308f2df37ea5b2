/** Value-level definitions behind the joint-histogram engine of
    vtkImageMutualInformation: sums of counts, the effect of binning a run of
    samples into one worker histogram, the merge of all worker histograms,
    the row and column totals of the merged histogram, the c*log(c) entropy
    sums with the MI/NMI they give, and the rows copied to the output image.

    A histogram is a `seq<int>` of counts.  An nx-by-ny joint histogram keeps
    cell (ix, iy) at offset nx*iy + ix, the layout the reduction reads. */
module Histogram {
  import opened Wrappers

  // ------------------------------------------------------------------ sums

  /** Total of a run of counts. */
  function Sum(s: seq<int>): int
  {
    if s == [] then 0 else Sum(s[..|s| - 1]) + s[|s| - 1]
  }

  /** A histogram of `n` empty cells. */
  function Zeros(n: nat): (z: seq<int>)
    ensures |z| == n
    ensures forall k :: 0 <= k < n ==> z[k] == 0
  {
    seq(n, _ => 0)
  }

  /** Cell-by-cell sum of two histograms of the same size. */
  function Add(a: seq<int>, b: seq<int>): (r: seq<int>)
    requires |a| == |b|
    ensures |r| == |a|
    ensures forall k :: 0 <= k < |a| ==> r[k] == a[k] + b[k]
  {
    seq(|a|, k requires 0 <= k < |a| => a[k] + b[k])
  }

  lemma {:induction false} SumZeros(n: nat)
    ensures Sum(Zeros(n)) == 0
  {
    if n > 0 {
      assert Zeros(n)[..n - 1] == Zeros(n - 1);
      SumZeros(n - 1);
    }
  }

  lemma {:induction false} SumConcat(a: seq<int>, b: seq<int>)
    ensures Sum(a + b) == Sum(a) + Sum(b)
  {
    if b == [] {
      assert a + b == a;
    } else {
      assert (a + b)[..|a + b| - 1] == a + b[..|b| - 1];
      SumConcat(a, b[..|b| - 1]);
    }
  }

  /** Adding `c` to one cell adds `c` to the total. */
  lemma {:induction false} SumUpdate(s: seq<int>, i: int, c: int)
    requires 0 <= i < |s|
    ensures Sum(s[i := s[i] + c]) == Sum(s) + c
  {
    var t := s[i := s[i] + c];
    if i == |s| - 1 {
      assert t[..|t| - 1] == s[..|s| - 1];
    } else {
      assert t[..|t| - 1] == s[..|s| - 1][i := s[i] + c];
      SumUpdate(s[..|s| - 1], i, c);
    }
  }

  lemma {:induction false} SumAdd(a: seq<int>, b: seq<int>)
    requires |a| == |b|
    ensures Sum(Add(a, b)) == Sum(a) + Sum(b)
  {
    if a != [] {
      var n := |a| - 1;
      assert Add(a, b)[..n] == Add(a[..n], b[..n]);
      SumAdd(a[..n], b[..n]);
    }
  }

  /** Row `iy` of an nx-wide histogram with ny rows ends inside it. */
  lemma RowInside(nx: int, iy: int, ny: int)
    requires 0 <= nx && 0 <= iy < ny
    ensures 0 <= nx * iy && nx * iy + nx <= nx * ny
  {
    assert nx * ny == nx * iy + nx * (ny - iy);
    assert nx * (ny - iy) == nx + nx * (ny - iy - 1);
  }

  /** Scaling by a non-negative factor keeps the order. */
  lemma MultiplyMonotone(a: int, b: int, c: int)
    requires a <= b && 0 <= c
    ensures c * a <= c * b
  {
    assert c * b - c * a == c * (b - a);
  }

  // ---------------------------------------------------- one worker's tally

  /** Every offset names a cell of a histogram with `n` cells. */
  predicate CellsIn(offsets: seq<int>, n: int)
  {
    forall i :: 0 <= i < |offsets| ==> 0 <= offsets[i] < n
  }

  /** The histogram `h` after one increment of cell `o` for each entry `o` of
      `offsets`, taken in order: what the binning loops do to a worker buffer. */
  function Tally(h: seq<int>, offsets: seq<int>): (r: seq<int>)
    requires CellsIn(offsets, |h|)
    ensures |r| == |h|
  {
    if offsets == [] then h
    else
      var t := Tally(h, offsets[..|offsets| - 1]);
      var o := offsets[|offsets| - 1];
      t[o := t[o] + 1]
  }

  /** How many entries of `offsets` equal `k`. */
  function Occurrences(offsets: seq<int>, k: int): nat
  {
    if offsets == [] then 0
    else Occurrences(offsets[..|offsets| - 1], k) + (if offsets[|offsets| - 1] == k then 1 else 0)
  }

  /** Each cell grows by the number of samples binned into it; a cell no sample
      was binned into keeps its count. */
  lemma {:induction false} TallyAt(h: seq<int>, offsets: seq<int>, k: int)
    requires CellsIn(offsets, |h|) && 0 <= k < |h|
    ensures Tally(h, offsets)[k] == h[k] + Occurrences(offsets, k)
    ensures k !in offsets ==> Tally(h, offsets)[k] == h[k]
  {
    if offsets != [] {
      var init := offsets[..|offsets| - 1];
      TallyAt(h, init, k);
      assert k !in offsets ==> k !in init;
    }
  }

  /** The histogram total grows by exactly the number of samples binned. */
  lemma {:induction false} TallyTotal(h: seq<int>, offsets: seq<int>)
    requires CellsIn(offsets, |h|)
    ensures Sum(Tally(h, offsets)) == Sum(h) + |offsets|
  {
    if offsets != [] {
      var init := offsets[..|offsets| - 1];
      var t := Tally(h, init);
      TallyTotal(h, init);
      SumUpdate(t, offsets[|offsets| - 1], 1);
    }
  }

  // ------------------------------------------------- merging the workers

  /** Every allocated worker histogram has `n` cells. */
  predicate Sized(hs: seq<Option<seq<int>>>, n: int)
  {
    forall w :: 0 <= w < |hs| && hs[w].Some? ==> |hs[w].value| == n
  }

  /** What one worker adds to cell `k`: nothing when its buffer was never allocated. */
  function Contribution(h: Option<seq<int>>, k: int): int
    requires h.Some? ==> 0 <= k < |h.value|
  {
    match h
    case None => 0
    case Some(d) => d[k]
  }

  /** Cell `k` summed over the worker histograms `hs`. */
  function CellSum(hs: seq<Option<seq<int>>>, n: int, k: int): int
    requires Sized(hs, n) && 0 <= k < n
  {
    if hs == [] then 0
    else CellSum(hs[..|hs| - 1], n, k) + Contribution(hs[|hs| - 1], k)
  }

  /** The merged joint histogram: each cell summed over all workers. */
  function Merged(hs: seq<Option<seq<int>>>, n: nat): (m: seq<int>)
    requires Sized(hs, n)
    ensures |m| == n
  {
    seq(n, k requires 0 <= k < n => CellSum(hs, n, k))
  }

  /** All cells of all allocated worker histograms, added up. */
  function TotalCells(hs: seq<Option<seq<int>>>): int
  {
    if hs == [] then 0
    else
      TotalCells(hs[..|hs| - 1]) + match hs[|hs| - 1] case None => 0 case Some(d) => Sum(d)
  }

  /** The merged histogram holds every count of every worker. */
  lemma {:induction false} MergedTotal(hs: seq<Option<seq<int>>>, n: nat)
    requires Sized(hs, n)
    ensures Sum(Merged(hs, n)) == TotalCells(hs)
  {
    if hs == [] {
      assert Merged(hs, n) == Zeros(n);
      SumZeros(n);
    } else {
      var init, last := hs[..|hs| - 1], hs[|hs| - 1];
      MergedTotal(init, n);
      var extra := match last case None => Zeros(n) case Some(d) => d;
      assert Merged(hs, n) == Add(Merged(init, n), extra);
      SumAdd(Merged(init, n), extra);
      if last.None? {
        SumZeros(n);
      }
    }
  }

  lemma {:induction false} CellSumConcat(a: seq<Option<seq<int>>>, b: seq<Option<seq<int>>>, n: int, k: int)
    requires Sized(a, n) && Sized(b, n) && 0 <= k < n
    ensures Sized(a + b, n)
    ensures CellSum(a + b, n, k) == CellSum(a, n, k) + CellSum(b, n, k)
  {
    if b == [] {
      assert a + b == a;
    } else {
      assert (a + b)[..|a + b| - 1] == a + b[..|b| - 1];
      CellSumConcat(a, b[..|b| - 1], n, k);
    }
  }

  /** Taking worker `i` out of `gs` leaves workers with the same multiset as `init`. */
  lemma RemoveWorker(init: seq<Option<seq<int>>>, last: Option<seq<int>>, gs: seq<Option<seq<int>>>, i: int)
    requires 0 <= i < |gs| && gs[i] == last
    requires multiset(init + [last]) == multiset(gs)
    ensures gs == gs[..i] + [last] + gs[i + 1..]
    ensures multiset(init) == multiset(gs[..i] + gs[i + 1..])
  {
    var before, after := gs[..i], gs[i + 1..];
    assert gs == before + [last] + after;
    calc {
      multiset(init);
      multiset(init + [last]) - multiset{last};
      multiset(gs) - multiset{last};
      multiset(before) + multiset(after);
      multiset(before + after);
    }
  }

  lemma {:induction false} CellSumPermutation(hs: seq<Option<seq<int>>>, gs: seq<Option<seq<int>>>, n: int, k: int)
    requires Sized(hs, n) && Sized(gs, n) && 0 <= k < n
    requires multiset(hs) == multiset(gs)
    ensures CellSum(hs, n, k) == CellSum(gs, n, k)
  {
    if hs == [] {
      assert |multiset(gs)| == 0;
    } else {
      var init, last := hs[..|hs| - 1], hs[|hs| - 1];
      assert hs == init + [last];
      assert last in multiset(gs);
      var i :| 0 <= i < |gs| && gs[i] == last;
      RemoveWorker(init, last, gs, i);
      var before, after := gs[..i], gs[i + 1..];
      assert Sized([last], n);
      CellSumConcat(before, after, n, k);
      CellSumConcat(before, [last], n, k);
      CellSumConcat(before + [last], after, n, k);
      CellSumPermutation(init, before + after, n, k);
      assert CellSum([last], n, k) == Contribution(last, k) by {
        assert [last][..0] == [];
      }
    }
  }

  /** The merged histogram does not depend on the order of the workers. */
  lemma MergedOrderIndependent(hs: seq<Option<seq<int>>>, gs: seq<Option<seq<int>>>, n: nat)
    requires Sized(hs, n) && multiset(hs) == multiset(gs)
    ensures Sized(gs, n) && Merged(hs, n) == Merged(gs, n)
  {
    forall w | 0 <= w < |gs| && gs[w].Some?
      ensures |gs[w].value| == n
    {
      assert gs[w] in multiset(hs);
    }
    forall k | 0 <= k < n
      ensures Merged(hs, n)[k] == Merged(gs, n)[k]
    {
      CellSumPermutation(hs, gs, n, k);
    }
  }

  /** The buffer a worker tallies into: its own, or a zero-filled one when
      it has none yet. */
  function WorkerStart(h: Option<seq<int>>, n: nat): (s: seq<int>)
    requires h.Some? ==> |h.value| == n
    ensures |s| == n
    ensures forall k :: 0 <= k < n ==> s[k] == Contribution(h, k)
  {
    match h
    case None => Zeros(n)
    case Some(d) => d
  }

  /** Replacing one worker's histogram changes each merged cell by the
      difference of that worker's contributions. */
  lemma {:induction false} CellSumUpdate(hs: seq<Option<seq<int>>>, n: int, k: int, t: int, h: Option<seq<int>>)
    requires Sized(hs, n) && 0 <= k < n && 0 <= t < |hs| && (h.Some? ==> |h.value| == n)
    ensures Sized(hs[t := h], n)
    ensures CellSum(hs[t := h], n, k) == CellSum(hs, n, k) - Contribution(hs[t], k) + Contribution(h, k)
  {
    var updated := hs[t := h];
    var init := hs[..|hs| - 1];
    if t == |hs| - 1 {
      assert updated[..|updated| - 1] == init;
    } else {
      CellSumUpdate(init, n, k, t, h);
      assert updated[..|updated| - 1] == init[t := h];
    }
  }

  /** Binning a run of samples into the buffer of any one worker adds exactly
      those samples to the merged histogram, whichever worker it is. */
  lemma MergedAfterTally(hs: seq<Option<seq<int>>>, n: nat, t: int, offsets: seq<int>)
    requires Sized(hs, n) && 0 <= t < |hs| && CellsIn(offsets, n)
    ensures Sized(hs[t := Some(Tally(WorkerStart(hs[t], n), offsets))], n)
    ensures Merged(hs[t := Some(Tally(WorkerStart(hs[t], n), offsets))], n) == Tally(Merged(hs, n), offsets)
  {
    var h := Some(Tally(WorkerStart(hs[t], n), offsets));
    var updated := hs[t := h];
    forall k | 0 <= k < n
      ensures Sized(updated, n) && Merged(updated, n)[k] == Tally(Merged(hs, n), offsets)[k]
    {
      CellSumUpdate(hs, n, k, t, h);
      TallyAt(WorkerStart(hs[t], n), offsets, k);
      TallyAt(Merged(hs, n), offsets, k);
    }
  }

  // ------------------------------------------------ rows and marginals

  /** Row `iy` of a histogram whose rows hold `nx` cells. */
  function Row(m: seq<int>, nx: nat, iy: nat): (r: seq<int>)
    requires nx * iy + nx <= |m|
    ensures |r| == nx
  {
    m[nx * iy .. nx * iy + nx]
  }

  /** Row `iy` of an nx-by-ny histogram. */
  function RowOf(m: seq<int>, nx: nat, ny: nat, iy: nat): (r: seq<int>)
    requires |m| == nx * ny && iy < ny
    ensures |r| == nx
  {
    RowInside(nx, iy, ny);
    Row(m, nx, iy)
  }

  /** Row `iy` of the merge of the first `w` workers. */
  function MergedPrefixRow(hs: seq<Option<seq<int>>>, nx: nat, ny: nat, iy: nat, w: int): (r: seq<int>)
    requires Sized(hs, nx * ny) && iy < ny && 0 <= w <= |hs|
    ensures |r| == nx
    ensures w == |hs| ==> r == RowOf(Merged(hs, nx * ny), nx, ny, iy)
  {
    assert w == |hs| ==> hs[..w] == hs;
    RowOf(Merged(hs[..w], nx * ny), nx, ny, iy)
  }

  /** Before any worker is merged, every row is empty. */
  lemma MergedNoWorkersRow(hs: seq<Option<seq<int>>>, nx: nat, ny: nat, iy: nat)
    requires Sized(hs, nx * ny) && iy < ny
    ensures MergedPrefixRow(hs, nx, ny, iy, 0) == Zeros(nx)
  {
    RowInside(nx, iy, ny);
    assert hs[..0] == [];
  }

  /** Adding one more worker to the merge adds its row `iy`, if it has a
      buffer, to row `iy` of the merged histogram. */
  lemma MergedRowStep(hs: seq<Option<seq<int>>>, nx: nat, ny: nat, iy: nat, w: int)
    requires Sized(hs, nx * ny) && iy < ny && 0 <= w < |hs|
    ensures MergedPrefixRow(hs, nx, ny, iy, w + 1)
         == if hs[w].Some? then Add(MergedPrefixRow(hs, nx, ny, iy, w), RowOf(hs[w].value, nx, ny, iy))
            else MergedPrefixRow(hs, nx, ny, iy, w)
  {
    RowInside(nx, iy, ny);
    assert hs[..w + 1][..w] == hs[..w];
  }

  /** The x-marginal `xHist` after the first `rows` rows: column totals. */
  function ColumnTotals(m: seq<int>, nx: nat, rows: nat): (t: seq<int>)
    requires nx * rows <= |m|
    ensures |t| == nx
  {
    if rows == 0 then Zeros(nx)
    else
      RowInside(nx, rows - 1, rows);
      Add(ColumnTotals(m, nx, rows - 1), Row(m, nx, rows - 1))
  }

  /** The row totals `a` of the first `rows` rows, the y-marginal. */
  function RowTotals(m: seq<int>, nx: nat, rows: nat): (t: seq<int>)
    requires nx * rows <= |m|
    ensures |t| == rows
  {
    if rows == 0 then []
    else
      RowInside(nx, rows - 1, rows);
      RowTotals(m, nx, rows - 1) + [Sum(Row(m, nx, rows - 1))]
  }

  /** What row `iy` adds to the marginals and to the joint c*log(c) sum. */
  lemma RowStep(m: seq<int>, nx: nat, ny: nat, iy: nat, ln: real -> real)
    requires |m| == nx * ny && iy < ny
    ensures nx * iy <= nx * (iy + 1) == nx * iy + nx <= |m|
    ensures RowOf(m, nx, ny, iy) == m[nx * iy .. nx * iy + nx]
    ensures ColumnTotals(m, nx, iy + 1) == Add(ColumnTotals(m, nx, iy), RowOf(m, nx, ny, iy))
    ensures SumXLogX(RowTotals(m, nx, iy + 1), ln)
         == SumXLogX(RowTotals(m, nx, iy), ln) + XLogX(Sum(RowOf(m, nx, ny, iy)), ln)
    ensures SumXLogX(m[..nx * (iy + 1)], ln) == SumXLogX(m[..nx * iy], ln) + SumXLogX(RowOf(m, nx, ny, iy), ln)
  {
    RowInside(nx, iy, ny);
    assert nx * (iy + 1) == nx * iy + nx;
    var t := RowTotals(m, nx, iy + 1);
    assert t[..|t| - 1] == RowTotals(m, nx, iy);
    assert m[..nx * (iy + 1)] == m[..nx * iy] + RowOf(m, nx, ny, iy);
    SumXLogXConcat(m[..nx * iy], RowOf(m, nx, ny, iy), ln);
  }

  /** The counts of the first `rows` rows: those of the first `rows - 1`
      rows and then the last of them. */
  lemma PrefixRowsStep(m: seq<int>, nx: nat, rows: nat)
    requires 1 <= rows && nx * rows <= |m|
    ensures 0 <= nx * (rows - 1) <= nx * (rows - 1) + nx == nx * rows
    ensures Sum(m[..nx * rows]) == Sum(m[..nx * (rows - 1)]) + Sum(Row(m, nx, rows - 1))
  {
    RowInside(nx, rows - 1, rows);
    assert m[..nx * rows] == m[..nx * (rows - 1)] + Row(m, nx, rows - 1);
    SumConcat(m[..nx * (rows - 1)], Row(m, nx, rows - 1));
  }

  /** The column totals add up to the number of samples in the first `rows` rows. */
  lemma {:induction false} ColumnTotalsSum(m: seq<int>, nx: nat, rows: nat)
    requires nx * rows <= |m|
    ensures Sum(ColumnTotals(m, nx, rows)) == Sum(m[..nx * rows])
  {
    if rows == 0 {
      SumZeros(nx);
    } else {
      var iy := rows - 1;
      PrefixRowsStep(m, nx, rows);
      ColumnTotalsSum(m, nx, iy);
      SumAdd(ColumnTotals(m, nx, iy), Row(m, nx, iy));
    }
  }

  /** The row totals add up to the number of samples in the first `rows` rows. */
  lemma {:induction false} RowTotalsSum(m: seq<int>, nx: nat, rows: nat)
    requires nx * rows <= |m|
    ensures Sum(RowTotals(m, nx, rows)) == Sum(m[..nx * rows])
  {
    if rows > 0 {
      var iy := rows - 1;
      PrefixRowsStep(m, nx, rows);
      RowTotalsSum(m, nx, iy);
      var t := RowTotals(m, nx, rows);
      assert t[..|t| - 1] == RowTotals(m, nx, iy);
    }
  }

  /** Both marginals add up to the number of samples in the first `rows` rows. */
  lemma MarginalTotals(m: seq<int>, nx: nat, rows: nat)
    requires nx * rows <= |m|
    ensures Sum(ColumnTotals(m, nx, rows)) == Sum(m[..nx * rows])
    ensures Sum(RowTotals(m, nx, rows)) == Sum(m[..nx * rows])
  {
    ColumnTotalsSum(m, nx, rows);
    RowTotalsSum(m, nx, rows);
  }

  // ------------------------------------------------------------ entropy

  /** One term c*log(c) of an entropy sum; an empty count adds nothing
      (the limit of c*log(c) at 0). */
  function XLogX(c: int, ln: real -> real): real
  {
    if c > 0 then (c as real) * ln(c as real) else 0.0
  }

  /** The sum of c*log(c) over a run of counts. */
  function SumXLogX(s: seq<int>, ln: real -> real): real
  {
    if s == [] then 0.0 else SumXLogX(s[..|s| - 1], ln) + XLogX(s[|s| - 1], ln)
  }

  /** The c*log(c) sum of two runs laid end to end. */
  lemma {:induction false} SumXLogXConcat(a: seq<int>, b: seq<int>, ln: real -> real)
    ensures SumXLogX(a + b, ln) == SumXLogX(a, ln) + SumXLogX(b, ln)
  {
    if b == [] {
      assert a + b == a;
    } else {
      assert (a + b)[..|a + b| - 1] == a + b[..|b| - 1];
      SumXLogXConcat(a, b[..|b| - 1], ln);
    }
  }

  /** A quotient of doubles: finite, or the NaN or infinity of a division by zero. */
  datatype Ratio = Finite(value: real) | NonFinite

  /** H = -S/count + log(count), for the c*log(c) sum S of a distribution with `count` samples. */
  function Entropy(s: real, count: int, ln: real -> real): real
    requires count != 0
  {
    -s / (count as real) + ln(count as real)
  }

  datatype Metrics = Metrics(mutualInformation: real, normalizedMutualInformation: Ratio)

  /** Mutual information Hx + Hy - Hxy and normalized mutual information
      (Hx + Hy) / Hxy of an nx-by-ny joint histogram, with the sentinel
      MI = 0, NMI = 1 when it holds no sample. */
  function MetricsOf(m: seq<int>, nx: nat, ny: nat, ln: real -> real): Metrics
    requires |m| == nx * ny
  {
    var xHist := ColumnTotals(m, nx, ny);
    var count := Sum(xHist);
    if count == 0 then Metrics(0.0, Finite(1.0))
    else
      var hx := Entropy(SumXLogX(xHist, ln), count, ln);
      var hy := Entropy(SumXLogX(RowTotals(m, nx, ny), ln), count, ln);
      var hxy := Entropy(SumXLogX(m, ln), count, ln);
      Metrics(hx + hy - hxy, if hxy != 0.0 then Finite((hx + hy) / hxy) else NonFinite)
  }

  /** The sample count behind the metrics is the total of all cells of all
      workers, and also the total of the row sums `a`. */
  lemma SampleCount(hs: seq<Option<seq<int>>>, nx: nat, ny: nat)
    requires Sized(hs, nx * ny)
    ensures Sum(ColumnTotals(Merged(hs, nx * ny), nx, ny)) == TotalCells(hs)
    ensures Sum(RowTotals(Merged(hs, nx * ny), nx, ny)) == TotalCells(hs)
  {
    var m := Merged(hs, nx * ny);
    MarginalTotals(m, nx, ny);
    assert m[..nx * ny] == m;
    MergedTotal(hs, nx * ny);
  }

  /** Without a single sample in any worker, MI is 0 and NMI is 1. */
  lemma MetricsWithoutSamples(hs: seq<Option<seq<int>>>, nx: nat, ny: nat, ln: real -> real)
    requires Sized(hs, nx * ny) && TotalCells(hs) == 0
    ensures MetricsOf(Merged(hs, nx * ny), nx, ny, ln) == Metrics(0.0, Finite(1.0))
  {
    SampleCount(hs, nx, ny);
  }

  // ------------------------------------------------------ output image

  /** How many of the rows 0 .. rows-1 lie inside [ue[2], ue[3]]. */
  function RowsWritten(ue: seq<int>, rows: nat): nat
    requires |ue| == 6
  {
    if rows == 0 then 0
    else RowsWritten(ue, rows - 1) + (if ue[2] <= rows - 1 <= ue[3] then 1 else 0)
  }

  /** The columns ue[0] .. ue[1] of an update extent lie inside an nx-wide histogram. */
  predicate ColumnsInside(ue: seq<int>, nx: int)
    requires |ue| == 6
  {
    ue[0] <= ue[1] ==> 0 <= ue[0] && ue[1] < nx
  }

  /** The output image after the first `rows` rows of the reduction: for each
      row inside [ue[2], ue[3]], its cells in columns ue[0] .. ue[1]. */
  function OutputRows(m: seq<int>, nx: nat, ue: seq<int>, rows: nat): seq<int>
    requires |ue| == 6 && ColumnsInside(ue, nx) && nx * rows <= |m|
  {
    if rows == 0 then []
    else
      var iy := rows - 1;
      RowInside(nx, iy, rows);
      OutputRows(m, nx, ue, iy)
        + if ue[2] <= iy <= ue[3] && ue[0] <= ue[1] then m[nx * iy + ue[0] .. nx * iy + ue[1] + 1] else []
  }

  /** The cell of column ix in row iy of the update extent sits at row
      iy - ue[2], column ix - ue[0] of the output, whose rows are
      ue[1] - ue[0] + 1 wide. */
  lemma {:induction false} OutputRowsAt(m: seq<int>, nx: nat, ue: seq<int>, rows: nat, ix: int, iy: int)
    requires |ue| == 6 && ColumnsInside(ue, nx) && nx * rows <= |m|
    requires 0 <= ue[2] <= iy <= ue[3] && iy < rows && ue[0] <= ix <= ue[1]
    ensures 0 <= nx * iy + ix < |m|
    ensures 0 <= (iy - ue[2]) * (ue[1] - ue[0] + 1) + (ix - ue[0]) < |OutputRows(m, nx, ue, rows)|
    ensures OutputRows(m, nx, ue, rows)[(iy - ue[2]) * (ue[1] - ue[0] + 1) + (ix - ue[0])] == m[nx * iy + ix]
  {
    var w := ue[1] - ue[0] + 1;
    var start := (iy - ue[2]) * w;
    RowInside(nx, iy, rows);
    RowInside(nx, rows - 1, rows);
    var out := OutputRows(m, nx, ue, rows);
    var prev := OutputRows(m, nx, ue, rows - 1);
    if iy == rows - 1 {
      OutputRowsLength(m, nx, ue, iy);
      RowsWrittenBelow(ue, iy);
      assert |prev| == start;
      var seg := m[nx * iy + ue[0] .. nx * iy + ue[1] + 1];
      assert out == prev + seg;
      assert out[start + (ix - ue[0])] == seg[ix - ue[0]];
    } else {
      OutputRowsAt(m, nx, ue, rows - 1, ix, iy);
      assert out[..|prev|] == prev;
    }
  }

  lemma {:induction false} OutputRowsLength(m: seq<int>, nx: nat, ue: seq<int>, rows: nat)
    requires |ue| == 6 && ColumnsInside(ue, nx) && nx * rows <= |m|
    ensures |OutputRows(m, nx, ue, rows)| == if ue[0] <= ue[1] then RowsWritten(ue, rows) * (ue[1] - ue[0] + 1) else 0
  {
    if rows > 0 {
      RowInside(nx, rows - 1, rows);
      OutputRowsLength(m, nx, ue, rows - 1);
      var w := ue[1] - ue[0] + 1;
      assert (RowsWritten(ue, rows - 1) + 1) * w == RowsWritten(ue, rows - 1) * w + w;
    }
  }

  lemma {:induction false} RowsWrittenBelow(ue: seq<int>, iy: nat)
    requires |ue| == 6 && 0 <= ue[2] <= iy <= ue[3] + 1
    ensures RowsWritten(ue, iy) == iy - ue[2]
  {
    if iy > ue[2] {
      RowsWrittenBelow(ue, iy - 1);
    } else {
      RowsWrittenNone(ue, iy);
    }
  }

  lemma {:induction false} RowsWrittenNone(ue: seq<int>, rows: nat)
    requires |ue| == 6 && rows <= ue[2]
    ensures RowsWritten(ue, rows) == 0
  {
    if rows > 0 {
      RowsWrittenNone(ue, rows - 1);
    }
  }

  /** One more row of the reduction appends the row's columns ue[0] .. ue[1]
      when the row lies inside [ue[2], ue[3]], and nothing otherwise. */
  lemma OutputRowsNext(m: seq<int>, nx: nat, ue: seq<int>, iy: nat)
    requires |ue| == 6 && ColumnsInside(ue, nx) && nx * iy + nx <= |m|
    ensures nx * (iy + 1) <= |m| && nx * iy <= |m|
    ensures OutputRows(m, nx, ue, iy + 1) == OutputRows(m, nx, ue, iy)
      + if ue[2] <= iy <= ue[3] && ue[0] <= ue[1] then Row(m, nx, iy)[ue[0] .. ue[1] + 1] else []
  {
    assert nx * (iy + 1) == nx * iy + nx;
    if ue[2] <= iy <= ue[3] && ue[0] <= ue[1] {
      var r := Row(m, nx, iy);
      var part, cells := r[ue[0] .. ue[1] + 1], m[nx * iy + ue[0] .. nx * iy + ue[1] + 1];
      forall k | 0 <= k < |part|
        ensures part[k] == cells[k]
      {
        assert r[ue[0] + k] == m[nx * iy + ue[0] + k];
      }
    }
  }

  /** The output after `rows` rows is a prefix of the output after more rows. */
  lemma {:induction false} OutputRowsGrow(m: seq<int>, nx: nat, ue: seq<int>, rows: nat, more: nat)
    requires |ue| == 6 && ColumnsInside(ue, nx) && rows <= more && nx * more <= |m|
    ensures nx * rows <= |m|
    ensures |OutputRows(m, nx, ue, rows)| <= |OutputRows(m, nx, ue, more)|
    ensures OutputRows(m, nx, ue, rows) == OutputRows(m, nx, ue, more)[..|OutputRows(m, nx, ue, rows)|]
  {
    MultiplyMonotone(rows, more, nx);
    if rows < more {
      RowInside(nx, more - 1, more);
      OutputRowsGrow(m, nx, ue, rows, more - 1);
    }
  }

  /** Cells of the output image of update extent `ue`: one per (column, row)
      of its x and y ranges. */
  function OutputLength(ue: seq<int>): nat
    requires |ue| == 6
  {
    if ue[0] <= ue[1] && ue[2] <= ue[3] then (ue[3] - ue[2] + 1) * (ue[1] - ue[0] + 1) else 0
  }

  /** Running the reduction over all ny rows fills exactly the output image
      of an update extent that lies inside the histogram. */
  lemma OutputRowsFill(m: seq<int>, nx: nat, ue: seq<int>, ny: nat)
    requires |ue| == 6 && ColumnsInside(ue, nx) && nx * ny <= |m|
    requires ue[2] <= ue[3] ==> 0 <= ue[2] && ue[3] < ny
    ensures |OutputRows(m, nx, ue, ny)| == OutputLength(ue)
  {
    OutputRowsLength(m, nx, ue, ny);
    if ue[2] <= ue[3] {
      RowsWrittenAll(ue, ny);
    } else {
      RowsWrittenOutside(ue, ny);
    }
  }

  lemma {:induction false} RowsWrittenAll(ue: seq<int>, rows: nat)
    requires |ue| == 6 && 0 <= ue[2] <= ue[3] < rows
    ensures RowsWritten(ue, rows) == ue[3] - ue[2] + 1
  {
    if rows - 1 == ue[3] {
      RowsWrittenBelow(ue, ue[3]);
    } else {
      RowsWrittenAll(ue, rows - 1);
    }
  }

  lemma {:induction false} RowsWrittenOutside(ue: seq<int>, rows: nat)
    requires |ue| == 6 && ue[2] > ue[3]
    ensures RowsWritten(ue, rows) == 0
  {
    if rows > 0 {
      RowsWrittenOutside(ue, rows - 1);
    }
  }
}
