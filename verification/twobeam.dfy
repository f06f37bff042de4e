/** The integer and layout parts of the two-beam fitter (`smf_twobeam`):
    the free-parameter vector handed to the minimiser, the partition of a
    row range among worker threads, the size of the fine beam grid, and
    the binning of the fine convolution grid back to the data grid with
    its residual statistics.

    Values the C code holds in `double` are modelled as `real`; the
    Gaussian beam, the look-up-table interpolation and the minimiser
    itself are not part of this model. */
module TwoBeam {
  import opened Common

  // ---------------------------------------------------------------------
  // The free-parameter vector
  // ---------------------------------------------------------------------

  /** Converts a Gaussian's standard deviation to its FWHM. */
  const S2F: real := 2.35482

  /** Pixel size of the fine grid, in arc-sec. */
  const PSIZE: real := 0.2

  /** Which parameters are free: a second Gaussian, a background level. */
  datatype Variant = Variant(fittwo: bool, fitback: bool)

  /** The beam parameters `smf1_domin` reads and writes through pointers. */
  datatype BeamParams = BeamParams(a1: real, a2: real, srchgt: real, fwhm1: real,
                                   fwhm2: real, cx: real, cy: real, back: real)

  /** The beam the cost function `smf1_f` evaluates, widths as standard
      deviations. */
  datatype Trial = Trial(a1: real, a2: real, srchgt: real, sigma1: real, sigma2: real,
                         cx: real, cy: real, back: real)

  /** The length of the free-parameter vector. */
  function ParamCount(v: Variant): (n: nat)
    ensures 4 <= n <= 7
  {
    (if v.fitback then 5 else 4) + (if v.fittwo then 2 else 0)
  }

  /** The vector length tells the variant apart. */
  lemma ParamCountDetermines(v: Variant, w: Variant)
    ensures ParamCount(v) == ParamCount(w) <==> v == w
  {
  }

  /** The starting point handed to the minimiser; widths are converted
      from FWHM to standard deviation. */
  function Pack(v: Variant, b: BeamParams): (x: seq<real>)
    ensures |x| == ParamCount(v)
  {
    var tail := if v.fitback then [b.back] else [];
    if v.fittwo then [b.a2, b.srchgt, b.fwhm1 / S2F, b.fwhm2 / S2F, b.cx, b.cy] + tail
    else [b.srchgt, b.fwhm1 / S2F, b.cx, b.cy] + tail
  }

  /** The beam parameters `smf1_domin` returns for the minimiser's final
      vector `x`; `b` holds the values passed in, of which only the
      background survives, and only when it is not free. */
  function Recover(v: Variant, x: seq<real>, b: BeamParams): (r: BeamParams)
    requires |x| == ParamCount(v)
    ensures r.a1 == 1.0
    ensures !v.fittwo ==> r.a2 == 0.0 && r.fwhm2 == 0.0
    ensures !v.fitback ==> r.back == b.back
  {
    if v.fittwo then
      BeamParams(1.0, x[0], x[1], x[2] * S2F, x[3] * S2F, x[4], x[5],
                 if v.fitback then x[6] else b.back)
    else
      BeamParams(1.0, 0.0, x[0], x[1] * S2F, 0.0 * S2F, x[2], x[3],
                 if v.fitback then x[4] else b.back)
  }

  /** The beam `smf1_f` reads from a trial vector. Without a second
      Gaussian its width is twice the first; without a free background the
      background is zero. */
  function TrialOf(v: Variant, x: seq<real>): (t: Trial)
    requires |x| == ParamCount(v)
    ensures t.a1 == 1.0
    ensures !v.fittwo ==> t.a2 == 0.0 && t.sigma2 == 2.0 * t.sigma1
    ensures !v.fitback ==> t.back == 0.0
  {
    if v.fittwo then
      Trial(1.0, x[0], x[1], x[2], x[3], x[4], x[5], if v.fitback then x[6] else 0.0)
    else
      Trial(1.0, 0.0, x[0], x[1], x[1] * 2.0, x[2], x[3], if v.fitback then x[4] else 0.0)
  }

  /** Packing and then recovering gives back every free parameter; the
      fixed primary amplitude is 1, and without a second Gaussian its
      amplitude and width come back as 0. */
  lemma PackRecover(v: Variant, b: BeamParams)
    ensures Recover(v, Pack(v, b), b)
            == b.(a1 := 1.0, a2 := if v.fittwo then b.a2 else 0.0,
                  fwhm2 := if v.fittwo then b.fwhm2 else 0.0)
  {
  }

  /** The cost function reads a packed vector as the same beam, widths as
      standard deviations. */
  lemma TrialOfPacked(v: Variant, b: BeamParams)
    ensures TrialOf(v, Pack(v, b))
            == Trial(1.0, if v.fittwo then b.a2 else 0.0, b.srchgt, b.fwhm1 / S2F,
                     if v.fittwo then b.fwhm2 / S2F else 2.0 * (b.fwhm1 / S2F),
                     b.cx, b.cy, if v.fitback then b.back else 0.0)
  {
  }

  /** `smf1_domin` and `smf1_f` read any vector with the same layout. */
  lemma ReadersAgree(v: Variant, x: seq<real>, b: BeamParams)
    requires |x| == ParamCount(v)
    ensures Recover(v, x, b).a2 == TrialOf(v, x).a2
    ensures Recover(v, x, b).srchgt == TrialOf(v, x).srchgt
    ensures Recover(v, x, b).fwhm1 == TrialOf(v, x).sigma1 * S2F
    ensures v.fittwo ==> Recover(v, x, b).fwhm2 == TrialOf(v, x).sigma2 * S2F
    ensures Recover(v, x, b).cx == TrialOf(v, x).cx && Recover(v, x, b).cy == TrialOf(v, x).cy
    ensures v.fitback ==> Recover(v, x, b).back == TrialOf(v, x).back
  {
  }

  // ---------------------------------------------------------------------
  // Worker partition
  // ---------------------------------------------------------------------

  /** The ranges of `n` rows given to `nw` workers in `smf1_f`: one row
      each when there are no more rows than workers, otherwise `n / nw`
      rows each with the last worker taking the rest. */
  function Partition(n: nat, nw: nat): (rs: seq<Span>)
    requires nw >= 1
    ensures |rs| == if n <= nw then n else nw
  {
    var step := if n <= nw then 1 else n / nw;
    var nw0 := if n <= nw then n else nw;
    seq(nw0, iw requires 0 <= iw < nw0 =>
      Span(Mul(iw, step), if iw < nw0 - 1 then Mul(iw, step) + step - 1 else n - 1))
  }

  /** The same partition as `smf1_beam` writes it, testing `n < nw`. */
  function BeamPartition(n: nat, nw: nat): (rs: seq<Span>)
    requires nw >= 1
    ensures |rs| == if n < nw then n else nw
  {
    var step := if n < nw then 1 else n / nw;
    var nw0 := if n < nw then n else nw;
    seq(nw0, iw requires 0 <= iw < nw0 =>
      Span(Mul(iw, step), if iw < nw0 - 1 then Mul(iw, step) + step - 1 else n - 1))
  }

  /** The last worker's range starts no later than the last row. */
  lemma LastStartBound(n: nat, nw: nat)
    requires nw >= 1 && n > nw
    ensures n / nw >= 1 && Mul(nw - 1, n / nw) + n / nw <= n
  {
    var step := n / nw;
    MulIsProduct(nw, step);
    assert Mul(nw, step) == Mul(nw - 1, step) + step;
    assert nw * step <= n;
  }

  /** The worker ranges are ascending, adjacent and cover `0..n-1`. */
  lemma PartitionTiles(n: nat, nw: nat)
    requires nw >= 1
    ensures Tiles(Partition(n, nw), n)
  {
    var rs := Partition(n, nw);
    var step := if n <= nw then 1 else n / nw;
    var nw0 := if n <= nw then n else nw;
    if n > 0 {
      if n <= nw {
        MulOne(nw0 - 1);
      } else {
        LastStartBound(n, nw);
      }
      assert step >= 1 && Mul(nw0 - 1, step) <= n - 1;
      assert Mul(0, step) == 0;
      assert rs[0].first == Mul(0, step);
      assert rs[|rs| - 1].last == n - 1;
      forall i | 0 <= i < |rs| ensures rs[i].first <= rs[i].last {
        if i < nw0 - 1 {
          assert rs[i].last == Mul(i, step) + step - 1;
        } else {
          assert rs[i] == Span(Mul(nw0 - 1, step), n - 1);
        }
      }
      forall i | 0 < i < |rs| ensures rs[i].first == rs[i - 1].last + 1 {
        assert rs[i - 1].last == Mul(i - 1, step) + step - 1;
        assert Mul(i, step) == Mul(i - 1, step) + step;
      }
    }
  }

  /** Testing `n < nw` rather than `n <= nw` makes no difference: with as
      many rows as workers both give one row each. */
  lemma BeamPartitionSame(n: nat, nw: nat)
    requires nw >= 1
    ensures BeamPartition(n, nw) == Partition(n, nw)
  {
    if n == nw {
      assert n / nw == 1;
    }
  }

  // ---------------------------------------------------------------------
  // Size of the fine beam grid
  // ---------------------------------------------------------------------

  /** The beam grid width as written: `2 * t + 1` pixels, where `t` is the
      beam radius in fine pixels truncated to an integer, but at least 100. */
  function NxbAsWritten(t: nat): (nxb: nat)
    ensures nxb >= 100 && nxb >= 2 * t + 1
  {
    var nxb := 2 * t + 1;
    if nxb < 100 then 100 else nxb
  }

  /** For every narrow beam (`2 * t + 1 < 100`) the clamp makes the width
      100, which is even, so the beam is not centred on a pixel as the
      accompanying comment requires; the width is even exactly then. */
  lemma NxbAsWrittenEven()
    ensures forall t: nat :: 2 * t + 1 < 100 ==> NxbAsWritten(t) == 100
    ensures forall t: nat :: NxbAsWritten(t) % 2 == 0 <==> 2 * t + 1 < 100
  {
  }

  /** The width clamped to an odd minimum. */
  function Nxb(t: nat): (nxb: nat)
    ensures nxb % 2 == 1 && nxb >= 100 && nxb >= 2 * t + 1
  {
    var nxb := 2 * t + 1;
    if nxb < 101 then 101 else nxb
  }

  /** The corrected width is the smallest odd width of at least 100 that
      holds the beam, and differs from the width as written only when the
      clamp fires. */
  lemma NxbLeast(t: nat, k: nat)
    requires k % 2 == 1 && k >= 100 && k >= 2 * t + 1
    ensures Nxb(t) <= k
    ensures NxbAsWritten(t) != Nxb(t) ==> 2 * t + 1 < 100
  {
  }

  /** The LUT entries given to each worker thread: the table has the
      as-written width `NxbAsWritten(t)`, split with the `nxb <= nw` test. */
  function LutRanges(t: nat, nw: nat): (rs: seq<Span>)
    requires nw >= 1
    ensures Tiles(rs, NxbAsWritten(t))
  {
    PartitionTiles(NxbAsWritten(t), nw);
    Partition(NxbAsWritten(t), nw)
  }

  /** The lines of the beam grid given to each worker thread in
      `smf1_beam`, which receives the same as-written width and splits it
      with the `nxb < nw` test: the lines tile the grid, and each worker
      gets the same range of lines as it gets of LUT entries. */
  function BeamLines(t: nat, nw: nat): (rs: seq<Span>)
    requires nw >= 1
    ensures Tiles(rs, NxbAsWritten(t))
    ensures rs == LutRanges(t, nw)
  {
    PartitionTiles(NxbAsWritten(t), nw);
    BeamPartitionSame(NxbAsWritten(t), nw);
    BeamPartition(NxbAsWritten(t), nw)
  }

  // ---------------------------------------------------------------------
  // Binning the fine grid back to the data grid (operation 3)
  // ---------------------------------------------------------------------

  /** The factor applied to a binned value: the C code computes
      `1/(ncomp*ncomp)` and then overrides it with 1. */
  const BinFactor: real := 1.0

  /** What a worker of operation 3 reads: the fine grid, holding `ncomp` by
      `ncomp` fine pixels per data pixel row by row, the data array, the
      background level, the bad-value sentinel and the initial maximum
      (`VAL__MIND`). */
  datatype BinJob = BinJob(grid: seq<real>, data: seq<real>, nx: nat, ny: nat, ncomp: nat,
                           back: real, bad: real, minD: real)
  {
    predicate Valid() {
      |grid| == Mul(Mul(ny, ncomp), Mul(nx, ncomp)) && |data| == Mul(ny, nx)
    }
  }

  /** Index in the fine grid of sub-pixel `(ic, jc)` of data pixel `(x, y)`. */
  function FineIndex(j: BinJob, y: nat, jc: nat, x: nat, ic: nat): nat {
    Mul(Mul(y, j.ncomp) + jc, Mul(j.nx, j.ncomp)) + Mul(x, j.ncomp) + ic
  }

  lemma FineIndexBound(j: BinJob, y: nat, jc: nat, x: nat, ic: nat)
    requires j.Valid() && y < j.ny && jc < j.ncomp && x < j.nx && ic < j.ncomp
    ensures FineIndex(j, y, jc, x, ic) < |j.grid|
  {
    var w := Mul(j.nx, j.ncomp);
    var r := Mul(y, j.ncomp) + jc;
    MulMono(x + 1, j.nx, j.ncomp);
    assert Mul(x + 1, j.ncomp) == Mul(x, j.ncomp) + j.ncomp;
    assert Mul(r + 1, w) == Mul(r, w) + w;
    MulMono(y + 1, j.ny, j.ncomp);
    assert Mul(y + 1, j.ncomp) == Mul(y, j.ncomp) + j.ncomp;
    MulMono(r + 1, Mul(j.ny, j.ncomp), w);
  }

  /** The binned value of data pixel `(x, y)`: the fine pixel at offset
      `(ncomp/2, ncomp/2)` of its block; every other fine pixel is skipped.
      With no fine pixels per data pixel nothing is added. */
  function Sample(j: BinJob, y: nat, x: nat): real
    requires j.Valid() && y < j.ny && x < j.nx
  {
    if j.ncomp == 0 then 0.0
    else
      FineIndexBound(j, y, j.ncomp / 2, x, j.ncomp / 2);
      j.grid[FineIndex(j, y, j.ncomp / 2, x, j.ncomp / 2)]
  }

  /** The model value stored for data pixel `(x, y)`. */
  function ModelAt(j: BinJob, y: nat, x: nat): real
    requires j.Valid() && y < j.ny && x < j.nx
  {
    Sample(j, y, x) * BinFactor + j.back
  }

  /** The data value of pixel `(x, y)`. */
  function DataAt(j: BinJob, y: nat, x: nat): real
    requires j.Valid() && y < j.ny && x < j.nx
  {
    MulMono(y + 1, j.ny, j.nx);
    j.data[Mul(y, j.nx) + x]
  }

  predicate Good(j: BinJob, y: nat, x: nat)
    requires j.Valid() && y < j.ny && x < j.nx
  {
    DataAt(j, y, x) != j.bad
  }

  function Sq(r: real): real {
    r * r
  }

  /** The running sums of one worker: the sum of squared residuals, the
      number of good pixels, and the largest model value at a good pixel. */
  datatype Stats = Stats(f: real, nsum: nat, maxm: real)

  /** Good pixels among the first `x` of row `y`. */
  function GoodCols(j: BinJob, y: nat, x: nat): nat
    requires j.Valid() && y < j.ny && x <= j.nx
    decreases x
  {
    if x == 0 then 0 else GoodCols(j, y, x - 1) + (if Good(j, y, x - 1) then 1 else 0)
  }

  /** Sum of squared residuals over the good pixels among the first `x` of
      row `y`, in column order. */
  function SqCols(j: BinJob, y: nat, x: nat): real
    requires j.Valid() && y < j.ny && x <= j.nx
    decreases x
  {
    if x == 0 then 0.0
    else SqCols(j, y, x - 1)
         + (if Good(j, y, x - 1) then Sq(DataAt(j, y, x - 1) - ModelAt(j, y, x - 1)) else 0.0)
  }

  /** Good pixels in rows `a` to `b - 1`. */
  function GoodRows(j: BinJob, a: nat, b: nat): nat
    requires j.Valid() && a <= b <= j.ny
    decreases b - a
  {
    if b == a then 0 else GoodRows(j, a, b - 1) + GoodCols(j, b - 1, j.nx)
  }

  /** Sum of squared residuals over the good pixels of rows `a` to `b - 1`. */
  function SqRows(j: BinJob, a: nat, b: nat): real
    requires j.Valid() && a <= b <= j.ny
    decreases b - a
  {
    if b == a then 0.0 else SqRows(j, a, b - 1) + SqCols(j, b - 1, j.nx)
  }

  /** The C code's running maximum: `b` replaces `a` only when larger. */
  function Max(a: real, b: real): real {
    if b > a then b else a
  }

  /** The running maximum of the model values at the good pixels among
      the first `x` of row `y`, starting from `minD`. */
  function MaxCols(j: BinJob, y: nat, x: nat): (m: real)
    requires j.Valid() && y < j.ny && x <= j.nx
    ensures m >= j.minD
    decreases x
  {
    if x == 0 then j.minD
    else if Good(j, y, x - 1) then Max(MaxCols(j, y, x - 1), ModelAt(j, y, x - 1))
    else MaxCols(j, y, x - 1)
  }

  /** The running maximum over the good pixels of rows `a` to `b - 1`. */
  function MaxRows(j: BinJob, a: nat, b: nat): (m: real)
    requires j.Valid() && a <= b <= j.ny
    ensures m >= j.minD
    decreases b - a
  {
    if b == a then j.minD else Max(MaxRows(j, a, b - 1), MaxCols(j, b - 1, j.nx))
  }

  /** `st` holds the statistics of the good pixels of rows `a` to `b - 1`. */
  predicate Summarises(j: BinJob, st: Stats, a: nat, b: nat)
    requires j.Valid() && a <= b <= j.ny
  {
    st.nsum == GoodRows(j, a, b) && st.f == SqRows(j, a, b) && st.maxm == MaxRows(j, a, b)
  }

  /** `st` holds the statistics of the good pixels from row `l1` up to
      column `ix` of row `iy`. */
  predicate Partial(j: BinJob, st: Stats, l1: nat, iy: nat, ix: nat)
    requires j.Valid() && l1 <= iy < j.ny && ix <= j.nx
  {
    && st.nsum == GoodRows(j, l1, iy) + GoodCols(j, iy, ix)
    && st.f == SqRows(j, l1, iy) + SqCols(j, iy, ix)
    && st.maxm == Max(MaxRows(j, l1, iy), MaxCols(j, iy, ix))
  }

  /** One pixel's contribution to the running statistics. */
  function Visit(st: Stats, a: real, m: real, bad: real): Stats {
    if a != bad then Stats(st.f + Sq(a - m), st.nsum + 1, Max(st.maxm, m)) else st
  }

  /** The statistics after visiting the first `ix` pixels of row `iy`,
      starting from `st0`. */
  function RowStats(j: BinJob, st0: Stats, iy: nat, ix: nat): Stats
    requires j.Valid() && iy < j.ny && ix <= j.nx
    decreases ix
  {
    if ix == 0 then st0
    else Visit(RowStats(j, st0, iy, ix - 1), DataAt(j, iy, ix - 1), ModelAt(j, iy, ix - 1), j.bad)
  }

  lemma {:induction false} RowStatsPartial(j: BinJob, st0: Stats, l1: nat, iy: nat, ix: nat)
    requires j.Valid() && l1 <= iy < j.ny && ix <= j.nx && Summarises(j, st0, l1, iy)
    ensures Partial(j, RowStats(j, st0, iy, ix), l1, iy, ix)
    decreases ix
  {
    if ix > 0 {
      RowStatsPartial(j, st0, l1, iy, ix - 1);
    }
  }

  /** Visiting a whole row extends the statistics by one row. */
  lemma RowStatsSummarise(j: BinJob, st0: Stats, l1: nat, iy: nat)
    requires j.Valid() && l1 <= iy < j.ny && Summarises(j, st0, l1, iy)
    ensures Summarises(j, RowStats(j, st0, iy, j.nx), l1, iy + 1)
  {
    RowStatsPartial(j, st0, l1, iy, j.nx);
  }

  /** Pixel `(x, y)` lies in rows `a` to `b - 1`. */
  predicate InRows(a: nat, b: nat, nx: nat, y: nat, x: nat) {
    a <= y < b && x < nx
  }

  /** The running maximum over a row prefix is the larger of `minD` and the
      largest model value at a good pixel of the prefix. */
  lemma {:induction false} MaxColsIsMax(j: BinJob, y: nat, x: nat)
    requires j.Valid() && y < j.ny && x <= j.nx
    ensures forall k :: 0 <= k < x && Good(j, y, k) ==> ModelAt(j, y, k) <= MaxCols(j, y, x)
    ensures MaxCols(j, y, x) == j.minD
            || exists k :: 0 <= k < x && Good(j, y, k) && ModelAt(j, y, k) == MaxCols(j, y, x)
    decreases x
  {
    if x > 0 {
      MaxColsIsMax(j, y, x - 1);
    }
  }

  /** The running maximum over rows `a` to `b - 1` is the larger of `minD`
      and the largest model value at a good pixel of those rows. */
  lemma {:induction false} MaxRowsIsMax(j: BinJob, a: nat, b: nat)
    requires j.Valid() && a <= b <= j.ny
    ensures forall y: nat, x: nat :: y < j.ny && x < j.nx && InRows(a, b, j.nx, y, x) && Good(j, y, x)
              ==> ModelAt(j, y, x) <= MaxRows(j, a, b)
    ensures MaxRows(j, a, b) == j.minD
            || exists y: nat, x: nat :: y < j.ny && x < j.nx && InRows(a, b, j.nx, y, x)
                 && Good(j, y, x) && ModelAt(j, y, x) == MaxRows(j, a, b)
    decreases b - a
  {
    if b > a {
      MaxRowsIsMax(j, a, b - 1);
      MaxColsIsMax(j, b - 1, j.nx);
      var m := MaxRows(j, a, b);
      forall y: nat, x: nat | y < j.ny && x < j.nx && InRows(a, b, j.nx, y, x) && Good(j, y, x)
        ensures ModelAt(j, y, x) <= m
      {
        if y < b - 1 {
          assert InRows(a, b - 1, j.nx, y, x);
        }
      }
      if m != j.minD {
        if m == MaxCols(j, b - 1, j.nx) {
          var k :| 0 <= k < j.nx && Good(j, b - 1, k) && ModelAt(j, b - 1, k) == m;
          assert InRows(a, b, j.nx, b - 1, k);
        } else {
          var y: nat, x: nat :| y < j.ny && x < j.nx && InRows(a, b - 1, j.nx, y, x)
                                && Good(j, y, x) && ModelAt(j, y, x) == MaxRows(j, a, b - 1);
          assert InRows(a, b, j.nx, y, x);
        }
      }
    }
  }

  /** Adds the fine pixels of data row `iy` into a zeroed row, walking the
      fine grid with the pointer `pg` as the C code does. */
  method AccumulateRow(j: BinJob, iy: nat, pg0: nat) returns (acc: seq<real>, pg: nat)
    requires j.Valid() && iy < j.ny && pg0 == Mul(Mul(iy, j.ncomp), Mul(j.nx, j.ncomp))
    ensures pg == Mul(Mul(iy + 1, j.ncomp), Mul(j.nx, j.ncomp))
    ensures |acc| == j.nx && forall x :: 0 <= x < j.nx ==> acc[x] == Sample(j, iy, x)
  {
    var nx, ncomp := j.nx, j.ncomp;
    var nxf := Mul(nx, ncomp);
    var icen := ncomp / 2;
    acc := seq(nx, _ => 0.0);
    pg := pg0;
    var jc := 0;
    while jc < ncomp
      invariant jc <= ncomp && pg == Mul(Mul(iy, ncomp) + jc, nxf)
      invariant |acc| == nx
      invariant forall x :: 0 <= x < nx ==> acc[x] == if jc > icen then Sample(j, iy, x) else 0.0
    {
      var ix := 0;
      while ix < nx
        invariant ix <= nx && pg == Mul(Mul(iy, ncomp) + jc, nxf) + Mul(ix, ncomp)
        invariant |acc| == nx
        invariant forall x :: 0 <= x < nx ==>
          acc[x] == if jc > icen || (jc == icen && x < ix) then Sample(j, iy, x) else 0.0
      {
        var ic := 0;
        while ic < ncomp
          invariant ic <= ncomp && pg == FineIndex(j, iy, jc, ix, ic)
          invariant |acc| == nx
          invariant forall x :: 0 <= x < nx && x != ix ==>
            acc[x] == if jc > icen || (jc == icen && x < ix) then Sample(j, iy, x) else 0.0
          invariant acc[ix] == if jc > icen || (jc == icen && ic > icen) then Sample(j, iy, ix) else 0.0
        {
          if ic == icen && jc == icen {
            FineIndexBound(j, iy, jc, ix, ic);
            acc := acc[ix := acc[ix] + j.grid[pg]];
          }
          pg := pg + 1;
          ic := ic + 1;
        }
        assert Mul(ix + 1, ncomp) == Mul(ix, ncomp) + ncomp;
        ix := ix + 1;
      }
      assert Mul(Mul(iy, ncomp) + jc + 1, nxf) == Mul(Mul(iy, ncomp) + jc, nxf) + nxf;
      jc := jc + 1;
    }
    assert Mul(iy + 1, ncomp) == Mul(iy, ncomp) + ncomp;
  }

  /** Turns the accumulated row into model values and adds the residuals
      of its good pixels to the running statistics. */
  method ResidualRow(j: BinJob, iy: nat, acc: seq<real>, st0: Stats, pa0: nat)
    returns (row: seq<real>, st: Stats, pa: nat)
    requires j.Valid() && iy < j.ny && pa0 == Mul(iy, j.nx)
    requires |acc| == j.nx && forall x :: 0 <= x < j.nx ==> acc[x] == Sample(j, iy, x)
    ensures pa == Mul(iy + 1, j.nx)
    ensures |row| == j.nx && forall x :: 0 <= x < j.nx ==> row[x] == ModelAt(j, iy, x)
    ensures st == RowStats(j, st0, iy, j.nx)
  {
    MulMono(iy + 1, j.ny, j.nx);
    row, st, pa := [], st0, pa0;
    var ix := 0;
    while ix < j.nx
      invariant ix <= j.nx && pa == Mul(iy, j.nx) + ix
      invariant |row| == ix && forall x :: 0 <= x < ix ==> row[x] == ModelAt(j, iy, x)
      invariant st == RowStats(j, st0, iy, ix)
    {
      var m := acc[ix] * BinFactor + j.back;
      row := row + [m];
      assert j.data[pa] == DataAt(j, iy, ix);
      if j.data[pa] != j.bad {
        var res := j.data[pa] - m;
        st := Stats(st.f + Sq(res), st.nsum + 1, if m > st.maxm then m else st.maxm);
      }
      pa := pa + 1;
      ix := ix + 1;
    }
  }

  /** `out` holds the model values of rows `lo` onwards. */
  predicate ModelRows(j: BinJob, out: seq<seq<real>>, lo: nat)
    requires j.Valid()
  {
    lo + |out| <= j.ny &&
    (forall y :: 0 <= y < |out| ==> |out[y]| == j.nx) &&
    forall y, x :: 0 <= y < |out| && 0 <= x < j.nx ==> out[y][x] == ModelAt(j, lo + y, x)
  }

  /** One worker of operation 3: the model values of data rows `l1` to
      `l2` and the statistics of their good pixels. */
  method BinRows(j: BinJob, l1: nat, l2: nat) returns (rows: seq<seq<real>>, st: Stats)
    requires j.Valid() && l1 <= l2 < j.ny
    ensures |rows| == l2 - l1 + 1 && ModelRows(j, rows, l1)
    ensures Summarises(j, st, l1, l2 + 1)
  {
    rows, st := [], Stats(0.0, 0, j.minD);
    var pg := Mul(Mul(l1, j.ncomp), Mul(j.nx, j.ncomp));
    var pa := Mul(l1, j.nx);
    var iy := l1;
    while iy <= l2
      invariant l1 <= iy <= l2 + 1 && |rows| == iy - l1
      invariant pg == Mul(Mul(iy, j.ncomp), Mul(j.nx, j.ncomp)) && pa == Mul(iy, j.nx)
      invariant ModelRows(j, rows, l1)
      invariant Summarises(j, st, l1, iy)
    {
      var acc, row;
      acc, pg := AccumulateRow(j, iy, pg);
      RowStatsSummarise(j, st, l1, iy);
      row, st, pa := ResidualRow(j, iy, acc, st, pa);
      rows := rows + [row];
      iy := iy + 1;
    }
  }

  // ---------------------------------------------------------------------
  // Combining the workers' sums
  // ---------------------------------------------------------------------

  /** The main thread's sum of the workers' statistics, in worker order. */
  function Combine(ws: seq<Stats>, minD: real): Stats
    decreases |ws|
  {
    if |ws| == 0 then Stats(0.0, 0, minD)
    else
      var s := Combine(ws[..|ws| - 1], minD);
      var w := ws[|ws| - 1];
      Stats(s.f + w.f, s.nsum + w.nsum, if w.maxm > s.maxm then w.maxm else s.maxm)
  }

  lemma {:induction false} GoodRowsSplit(j: BinJob, a: nat, b: nat, c: nat)
    requires j.Valid() && a <= b <= c <= j.ny
    ensures GoodRows(j, a, c) == GoodRows(j, a, b) + GoodRows(j, b, c)
    ensures SqRows(j, a, c) == SqRows(j, a, b) + SqRows(j, b, c)
    ensures MaxRows(j, a, c) == Max(MaxRows(j, a, b), MaxRows(j, b, c))
    decreases c - b
  {
    if c > b {
      GoodRowsSplit(j, a, b, c - 1);
    }
  }

  /** The first row after the first `k` spans. */
  function EndOf(rs: seq<Span>, k: nat): int
    requires k <= |rs|
  {
    if k == 0 then 0 else rs[k - 1].last + 1
  }

  /** The statistics of each of the first `k` workers cover its span of
      rows. */
  predicate SummariseUpTo(j: BinJob, rs: seq<Span>, ws: seq<Stats>, k: nat)
    requires j.Valid()
  {
    k <= |rs| && |ws| == k &&
    forall i :: 0 <= i < k ==>
      0 <= rs[i].first <= rs[i].last < j.ny && Summarises(j, ws[i], rs[i].first, rs[i].last + 1)
  }

  /** Each worker's statistics cover its span of rows. */
  predicate WorkersSummarise(j: BinJob, rs: seq<Span>, ws: seq<Stats>)
    requires j.Valid()
  {
    SummariseUpTo(j, rs, ws, |rs|)
  }

  lemma SummariseStep(j: BinJob, rs: seq<Span>, ws: seq<Stats>, i: nat, w: Stats)
    requires j.Valid() && SummariseUpTo(j, rs, ws, i) && i < |rs|
    requires 0 <= rs[i].first <= rs[i].last < j.ny && Summarises(j, w, rs[i].first, rs[i].last + 1)
    ensures SummariseUpTo(j, rs, ws + [w], i + 1)
  {
    var ws' := ws + [w];
    forall k | 0 <= k < i + 1
      ensures 0 <= rs[k].first <= rs[k].last < j.ny
              && Summarises(j, ws'[k], rs[k].first, rs[k].last + 1)
    {
      if k < i {
        assert ws'[k] == ws[k];
      }
    }
  }

  /** In a tiling, span `i` starts where the first `i` spans end. */
  lemma SpanStart(rs: seq<Span>, n: nat, i: nat)
    requires Tiles(rs, n) && i < |rs|
    ensures rs[i].first == EndOf(rs, i) && 0 <= EndOf(rs, i) <= rs[i].last < n
    ensures EndOf(rs, i + 1) == rs[i].last + 1
  {
    TilesWithin(rs, n, i);
  }

  lemma ModelRowsAppend(j: BinJob, out: seq<seq<real>>, rows: seq<seq<real>>)
    requires j.Valid() && ModelRows(j, out, 0) && ModelRows(j, rows, |out|)
    ensures ModelRows(j, out + rows, 0)
  {
    var r := out + rows;
    forall y, x | 0 <= y < |r| && 0 <= x < j.nx ensures r[y][x] == ModelAt(j, y, x) {
      if y >= |out| {
        assert r[y] == rows[y - |out|];
      }
    }
  }

  lemma {:induction false} CombinePrefix(j: BinJob, rs: seq<Span>, ws: seq<Stats>, k: nat)
    requires j.Valid() && Tiles(rs, j.ny) && WorkersSummarise(j, rs, ws) && k <= |rs|
    ensures 0 <= EndOf(rs, k) <= j.ny
    ensures Summarises(j, Combine(ws[..k], j.minD), 0, EndOf(rs, k))
    decreases k
  {
    if k > 0 {
      CombinePrefix(j, rs, ws, k - 1);
      assert ws[..k][..k - 1] == ws[..k - 1];
      var b := EndOf(rs, k - 1);
      assert rs[k - 1].first == b;
      GoodRowsSplit(j, 0, b, rs[k - 1].last + 1);
    }
  }

  /** Combining workers whose ranges tile the rows gives the statistics of
      every good pixel of the data array. */
  lemma CombineSummarises(j: BinJob, rs: seq<Span>, ws: seq<Stats>)
    requires j.Valid() && Tiles(rs, j.ny) && WorkersSummarise(j, rs, ws)
    ensures Summarises(j, Combine(ws, j.minD), 0, j.ny)
  {
    CombinePrefix(j, rs, ws, |rs|);
    assert ws[..|rs|] == ws;
  }

  /** Operation 3 over the whole data array with `nw` workers: the model
      value of every data pixel, and the combined statistics. */
  method BinAll(j: BinJob, nw: nat) returns (out: seq<seq<real>>, st: Stats)
    requires j.Valid() && nw >= 1
    ensures |out| == j.ny && forall y :: 0 <= y < j.ny ==> |out[y]| == j.nx
    ensures forall y, x :: 0 <= y < j.ny && 0 <= x < j.nx ==> out[y][x] == ModelAt(j, y, x)
    ensures Summarises(j, st, 0, j.ny)
  {
    var rs := Partition(j.ny, nw);
    PartitionTiles(j.ny, nw);
    out := [];
    var ws: seq<Stats> := [];
    var i := 0;
    while i < |rs|
      invariant i <= |rs| && |out| == EndOf(rs, i)
      invariant ModelRows(j, out, 0)
      invariant SummariseUpTo(j, rs, ws, i)
    {
      SpanStart(rs, j.ny, i);
      var rows, w := BinRows(j, rs[i].first, rs[i].last);
      ModelRowsAppend(j, out, rows);
      SummariseStep(j, rs, ws, i, w);
      out := out + rows;
      ws := ws + [w];
      i := i + 1;
    }
    CombineSummarises(j, rs, ws);
    st := Combine(ws, j.minD);
  }
}

