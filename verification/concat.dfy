/** Concatenation of the time chunks of a group of SCUBA-2 observations
    into one array per subarray (`smf_concat_smfGroup`).

    A group is a table `subgroups[j][i]`: row `j` is one time chunk and
    column `i` one subarray ("related" file); a positive entry names the
    file holding that chunk of that subarray. A first pass over a
    subarray's chunks checks that they are mutually compatible and adds up
    their time lengths; a second pass copies every chunk into one freshly
    allocated array, either time-ordered (all bolometers of one time slice
    adjacent) or bolometer-ordered (all time slices of one bolometer
    adjacent). Opening files, re-ordering a chunk (`smf_dataOrder`) and
    computing pointing look-up tables are not part of this model: a
    chunk's arrays are supplied already in the requested layout. */
module Concat {
  import opened Common

  // ---------------------------------------------------------------------
  // Sub-array count
  // ---------------------------------------------------------------------

  /** Group tables are rectangular: `ngroups` rows of `nrelated` entries. */
  predicate Rectangular(subgroups: seq<seq<int>>, nrelated: nat) {
    forall j :: 0 <= j < |subgroups| ==> |subgroups[j]| == nrelated
  }

  /** Some chunk of subarray `i` names a file. */
  predicate Used(subgroups: seq<seq<int>>, nrelated: nat, i: nat)
    requires Rectangular(subgroups, nrelated) && i < nrelated
  {
    exists j :: 0 <= j < |subgroups| && subgroups[j][i] > 0
  }

  /** The number of subarrays actually present: one more than the last
      column that holds any positive entry, found by the two nested loops
      of the source. */
  method CountRelated(subgroups: seq<seq<int>>, nrelated: nat) returns (n: nat)
    requires Rectangular(subgroups, nrelated)
    ensures n <= nrelated
    ensures n == 0 <==> forall i :: 0 <= i < nrelated ==> !Used(subgroups, nrelated, i)
    ensures n > 0 ==> Used(subgroups, nrelated, n - 1)
    ensures forall i :: n <= i < nrelated ==> !Used(subgroups, nrelated, i)
  {
    n := 0;
    var i := 0;
    while i < nrelated
      invariant 0 <= i <= nrelated
      invariant n <= i
      invariant n > 0 ==> Used(subgroups, nrelated, n - 1)
      invariant forall i' :: n <= i' < i ==> !Used(subgroups, nrelated, i')
    {
      var j := 0;
      ghost var before := n;
      while j < |subgroups|
        invariant 0 <= j <= |subgroups|
        invariant n == before || n == i + 1
        invariant n == i + 1 <==> exists j' :: 0 <= j' < j && subgroups[j'][i] > 0
      {
        if subgroups[j][i] > 0 && i + 1 > n {
          n := i + 1;
        }
        j := j + 1;
      }
      i := i + 1;
    }
  }

  // ---------------------------------------------------------------------
  // First pass: validation and total time length
  // ---------------------------------------------------------------------

  /** Index of the DATA, VARIANCE and QUALITY components. */
  const NCOMP: nat := 3

  /** What the first pass reads from one chunk's header. `present[k]`
      tells whether component `k` (DATA, VARIANCE, QUALITY) is mapped. */
  datatype ChunkHeader = ChunkHeader(ndims: nat, dims: seq<nat>, isTordered: bool,
                                     present: seq<bool>, dtype: nat)
  {
    predicate WellFormed() {
      |dims| == ndims && |present| == NCOMP
    }
    /** Number of time slices in a time-ordered 3-D chunk. */
    function TimeLen(): nat
      requires WellFormed() && ndims == 3
    {
      dims[2]
    }
  }

  /** Why a chunk is refused. A component the first chunk has and this one
      lacks "is missing"; one it has that the first lacks is "extra". */
  datatype Problem =
    | NotThreeD
    | BoloOrdered
    | DimsMismatch
    | MissingComponent(k: nat)
    | ExtraComponent(k: nat)
    | DTypeMismatch

  /** A chunk the first pass accepts without comparing it to anything: it
      is 3-D and time-ordered. */
  predicate ShapeOk(h: ChunkHeader) {
    h.WellFormed() && h.ndims == 3 && h.isTordered
  }

  /** A later chunk agrees with the first on detector dimensions, on which
      components are present and on data type. */
  predicate Compatible(h: ChunkHeader, h0: ChunkHeader)
    requires ShapeOk(h) && ShapeOk(h0)
  {
    h.dims[0] == h0.dims[0] && h.dims[1] == h0.dims[1]
    && h.present == h0.present && h.dtype == h0.dtype
  }

  /** The presence mismatch of component `k`, if any. */
  function ComponentProblem(h: ChunkHeader, h0: ChunkHeader, k: nat): seq<Problem>
    requires h.WellFormed() && h0.WellFormed() && k < NCOMP
  {
    if h.present[k] == h0.present[k] then []
    else if h0.present[k] then [MissingComponent(k)]
    else [ExtraComponent(k)]
  }

  /** Every error the first pass reports for chunk `j`, in the order the
      source reports them. A chunk that is not 3-D or not time-ordered gets
      that one error; otherwise every later chunk is compared with the
      first on each property in turn, and each mismatch is reported. */
  function ChunkProblems(h: ChunkHeader, j: nat, h0: ChunkHeader): (ps: seq<Problem>)
    requires h.WellFormed() && h0.WellFormed()
    requires j > 0 ==> ShapeOk(h0)
    ensures ps == [] <==> ShapeOk(h) && (j > 0 ==> Compatible(h, h0))
  {
    if h.ndims != 3 then [NotThreeD]
    else if !h.isTordered then [BoloOrdered]
    else if j == 0 then []
    else
      (if h.dims[0] != h0.dims[0] || h.dims[1] != h0.dims[1] then [DimsMismatch] else [])
      + ComponentProblem(h, h0, 0) + ComponentProblem(h, h0, 1) + ComponentProblem(h, h0, 2)
      + (if h.dtype != h0.dtype then [DTypeMismatch] else [])
  }

  /** Outcome of the first pass over one subarray's chunks. */
  datatype FirstPass =
    | Refused(chunk: nat, problems: seq<Problem>)
    | Accepted(nx: nat, ny: nat, present: seq<bool>, dtype: nat, tlen: nat)

  predicate AllWellFormed(hs: seq<ChunkHeader>) {
    forall j :: 0 <= j < |hs| ==> hs[j].WellFormed()
  }

  /** Every chunk of `hs` with index in `[from, to)` is acceptable. */
  predicate AcceptableBetween(hs: seq<ChunkHeader>, from: nat, to: nat)
    requires |hs| > 0 && ShapeOk(hs[0]) && to <= |hs|
  {
    forall j :: from <= j < to ==> ShapeOk(hs[j]) && Compatible(hs[j], hs[0])
  }

  /** Every chunk of `hs` from index `from` on is acceptable. */
  predicate AcceptableFrom(hs: seq<ChunkHeader>, from: nat)
    requires |hs| > 0 && ShapeOk(hs[0])
  {
    AcceptableBetween(hs, from, |hs|)
  }

  /** The time lengths of the chunks, in chunk order. */
  function TimeLens(hs: seq<ChunkHeader>): (lens: seq<nat>)
    requires forall j :: 0 <= j < |hs| ==> ShapeOk(hs[j])
    ensures |lens| == |hs|
    ensures forall j :: 0 <= j < |hs| ==> ShapeOk(hs[j]) && lens[j] == hs[j].dims[2]
    decreases |hs|
  {
    if |hs| == 0 then []
    else
      assert ShapeOk(hs[0]);
      [hs[0].dims[2]] + TimeLens(hs[1..])
  }

  /** Checks chunks `j..` against the first chunk, accumulating the time
      length; stops at the first chunk with a problem. */
  function CheckFrom(hs: seq<ChunkHeader>, j: nat, tlen: nat): (r: FirstPass)
    requires AllWellFormed(hs) && 0 < j <= |hs| && ShapeOk(hs[0])
    ensures r.Accepted? ==>
              AcceptableFrom(hs, j)
              && r.nx == hs[0].dims[0] && r.ny == hs[0].dims[1]
              && r.present == hs[0].present && r.dtype == hs[0].dtype
    decreases |hs| - j
  {
    if j == |hs| then
      Accepted(hs[0].dims[0], hs[0].dims[1], hs[0].present, hs[0].dtype, tlen)
    else
      var ps := ChunkProblems(hs[j], j, hs[0]);
      if ps != [] then Refused(j, ps)
      else CheckFrom(hs, j + 1, tlen + hs[j].dims[2])
  }

  /** The first pass over one subarray's chunks (there is at least one,
      since a subarray is only visited when some chunk names a file). */
  function Validate(hs: seq<ChunkHeader>): (r: FirstPass)
    requires AllWellFormed(hs) && |hs| > 0
    ensures r.Accepted? ==>
              ShapeOk(hs[0]) && AcceptableFrom(hs, 1) && r.nx == hs[0].dims[0] && r.ny == hs[0].dims[1]
              && r.present == hs[0].present && r.dtype == hs[0].dtype
  {
    var ps := ChunkProblems(hs[0], 0, hs[0]);
    if ps != [] then Refused(0, ps) else CheckFrom(hs, 1, hs[0].dims[2])
  }

  lemma {:induction false} CheckFromSpec(hs: seq<ChunkHeader>, j: nat, tlen: nat)
    requires AllWellFormed(hs) && 0 < j <= |hs| && ShapeOk(hs[0])
    requires forall j' :: 0 <= j' < j ==> ShapeOk(hs[j'])
    requires tlen == SumNat(TimeLens(hs[..j]))
    ensures CheckFrom(hs, j, tlen).Accepted? <==> AcceptableFrom(hs, j)
    ensures CheckFrom(hs, j, tlen).Accepted? ==>
              CheckFrom(hs, j, tlen).tlen == SumNat(TimeLens(hs))
    ensures CheckFrom(hs, j, tlen).Refused? ==>
              var c := CheckFrom(hs, j, tlen).chunk;
              j <= c < |hs| && AcceptableBetween(hs, j, c)
              && CheckFrom(hs, j, tlen).problems == ChunkProblems(hs[c], c, hs[0]) != []
    decreases |hs| - j
  {
    if j == |hs| {
      assert hs[..j] == hs;
    } else {
      var ps := ChunkProblems(hs[j], j, hs[0]);
      if ps == [] {
        assert hs[..j + 1] == hs[..j] + [hs[j]];
        assert TimeLens(hs[..j + 1]) == TimeLens(hs[..j]) + [hs[j].dims[2]];
        SumNatAppend(TimeLens(hs[..j]), [hs[j].dims[2]]);
        assert SumNat([hs[j].dims[2]]) == hs[j].dims[2];
        CheckFromSpec(hs, j + 1, tlen + hs[j].dims[2]);
      } else {
        assert !(ShapeOk(hs[j]) && Compatible(hs[j], hs[0]));
      }
    }
  }

  /** The first pass accepts exactly the chunk lists in which every chunk
      is 3-D and time-ordered and every later chunk matches the first; the
      accepted time length is the sum of the chunks' time lengths, and a
      refusal names the first offending chunk with its problems. */
  lemma ValidateSpec(hs: seq<ChunkHeader>)
    requires AllWellFormed(hs) && |hs| > 0
    ensures Validate(hs).Accepted? <==>
              ShapeOk(hs[0]) && AcceptableFrom(hs, 1)
    ensures Validate(hs).Accepted? ==>
              (forall j :: 0 <= j < |hs| ==> ShapeOk(hs[j]))
              && Validate(hs).tlen == SumNat(TimeLens(hs))
    ensures Validate(hs).Refused? ==>
              var c := Validate(hs).chunk;
              c < |hs|
              && Validate(hs).problems == ChunkProblems(hs[c], c, hs[0]) != []
              && (c > 0 ==> ShapeOk(hs[0]) && AcceptableBetween(hs, 1, c))
  {
    if ShapeOk(hs[0]) {
      assert hs[..1] == [hs[0]];
      assert TimeLens(hs[..1]) == [hs[0].dims[2]];
      assert SumNat([hs[0].dims[2]]) == hs[0].dims[2];
      CheckFromSpec(hs, 1, hs[0].dims[2]);
    }
  }

  // ---------------------------------------------------------------------
  // Second pass: the copy layouts
  // ---------------------------------------------------------------------

  /** `memcpy(dst + off, src, |src|)`. */
  function Blit<T>(dst: seq<T>, off: nat, src: seq<T>): (r: seq<T>)
    requires off + |src| <= |dst|
    ensures |r| == |dst|
  {
    dst[..off] + src + dst[off + |src|..]
  }

  /** Element `i` after the copy: from `src` inside the copied span, from
      `dst` outside it. */
  lemma BlitAt<T>(dst: seq<T>, off: nat, src: seq<T>, i: nat)
    requires off + |src| <= |dst| && i < |dst|
    ensures Blit(dst, off, src)[i] == if off <= i < off + |src| then src[i - off] else dst[i]
  {
  }

  /** The in-order concatenation of a list of blocks. */
  function Flatten<T>(cs: seq<seq<T>>): seq<T>
    decreases |cs|
  {
    if |cs| == 0 then [] else cs[0] + Flatten(cs[1..])
  }

  /** Block `j` holds `lens[j]` time slices of `w` values each, time slice
      by time slice (the time-ordered layout). */
  predicate Blocks<T>(cs: seq<seq<T>>, lens: seq<nat>, w: nat) {
    |cs| == |lens| && forall j :: 0 <= j < |cs| ==> |cs[j]| == Mul(lens[j], w)
  }

  /** Block `j` holds `n` bolometer rows of `lens[j]` values each (the
      bolometer-ordered layout). */
  predicate Stacked<T>(cs: seq<seq<T>>, lens: seq<nat>, n: nat) {
    |cs| == |lens| && forall j :: 0 <= j < |cs| ==> |cs[j]| == Mul(n, lens[j])
  }

  lemma StackedBlocks<T>(cs: seq<seq<T>>, lens: seq<nat>, n: nat)
    requires Stacked(cs, lens, n)
    ensures Blocks(cs, lens, n)
  {
    forall j | 0 <= j < |cs| ensures |cs[j]| == Mul(lens[j], n) {
      MulComm(n, lens[j]);
    }
  }

  lemma {:induction false} FlattenLen<T>(cs: seq<seq<T>>, lens: seq<nat>, w: nat)
    requires Blocks(cs, lens, w)
    ensures |Flatten(cs)| == Mul(SumNat(lens), w)
    decreases |cs|
  {
    if |cs| > 0 {
      FlattenLen(cs[1..], lens[1..], w);
      MulAdd(lens[0], SumNat(lens[1..]), w);
    }
  }

  /** Copies the blocks one after the other from element offset `off`. */
  function CopyAt<T>(dst: seq<T>, cs: seq<seq<T>>, off: nat): (r: seq<T>)
    requires off + |Flatten(cs)| <= |dst|
    ensures |r| == |dst|
    decreases |cs|
  {
    if |cs| == 0 then dst else CopyAt(Blit(dst, off, cs[0]), cs[1..], off + |cs[0]|)
  }

  /** `CopyAt` leaves every element outside the blocks' span as it was. */
  lemma {:induction false} CopyAtFrame<T>(dst: seq<T>, cs: seq<seq<T>>, off: nat, i: nat)
    requires off + |Flatten(cs)| <= |dst|
    requires i < |dst| && !(off <= i < off + |Flatten(cs)|)
    ensures CopyAt(dst, cs, off)[i] == dst[i]
    decreases |cs|
  {
    if |cs| > 0 {
      CopyAtFrame(Blit(dst, off, cs[0]), cs[1..], off + |cs[0]|, i);
      BlitAt(dst, off, cs[0], i);
    }
  }

  lemma SliceConcat<T>(r: seq<T>, lo: nat, mid: nat, hi: nat, a: seq<T>, b: seq<T>)
    requires lo <= mid <= hi <= |r| && r[lo..mid] == a && r[mid..hi] == b
    ensures r[lo..hi] == a + b
  {
    assert r[lo..hi] == r[lo..mid] + r[mid..hi];
  }

  /** `CopyAt` writes the concatenated blocks from offset `off`. */
  lemma {:induction false} CopyAtSpec<T>(dst: seq<T>, cs: seq<seq<T>>, off: nat)
    requires off + |Flatten(cs)| <= |dst|
    ensures CopyAt(dst, cs, off)[off .. off + |Flatten(cs)|] == Flatten(cs)
    decreases |cs|
  {
    if |cs| > 0 {
      var d1 := Blit(dst, off, cs[0]);
      var mid := off + |cs[0]|;
      var rest := Flatten(cs[1..]);
      CopyAtSpec(d1, cs[1..], mid);
      var r := CopyAt(d1, cs[1..], mid);
      assert r[off..mid] == cs[0] by {
        forall i | off <= i < mid ensures r[i] == cs[0][i - off] {
          CopyAtFrame(d1, cs[1..], mid, i);
          BlitAt(dst, off, cs[0], i);
        }
      }
      SliceConcat(r, off, mid, mid + |rest|, cs[0], rest);
    }
  }

  /** Copying the blocks from offset 0 into an array exactly their size
      yields their concatenation, whatever the array held. */
  lemma CopyAtWhole<T>(dst: seq<T>, cs: seq<seq<T>>)
    requires |Flatten(cs)| == |dst|
    ensures CopyAt(dst, cs, 0) == Flatten(cs)
  {
    CopyAtSpec(dst, cs, 0);
    var r := CopyAt(dst, cs, 0);
    assert r[0..|r|] == r;
  }

  /** The time-ordered copy: chunk `j` goes in one piece to offset
      `tchunk * w`, after which `tchunk` advances by the chunk's time
      length. With `w == 1` this is also the copy of the per-time-slice
      state records. */
  function CopyContiguous<T>(dst: seq<T>, cs: seq<seq<T>>, lens: seq<nat>,
                             tchunk: nat, w: nat): (r: seq<T>)
    requires Blocks(cs, lens, w)
    requires Mul(tchunk + SumNat(lens), w) <= |dst|
    ensures |r| == |dst|
    decreases |cs|
  {
    if |cs| == 0 then dst
    else
      MulAdd(tchunk, lens[0], w);
      MulMono(tchunk + lens[0], tchunk + SumNat(lens), w);
      CopyContiguous(Blit(dst, Mul(tchunk, w), cs[0]), cs[1..], lens[1..], tchunk + lens[0], w)
  }

  /** The offsets `tchunk * w` are where the blocks before each chunk end:
      the time-ordered copy is the plain back-to-back copy. */
  lemma {:induction false} CopyContiguousIsCopyAt<T>(dst: seq<T>, cs: seq<seq<T>>, lens: seq<nat>,
                                                     tchunk: nat, w: nat)
    requires Blocks(cs, lens, w)
    requires Mul(tchunk + SumNat(lens), w) <= |dst|
    ensures Mul(tchunk, w) + |Flatten(cs)| <= |dst|
    ensures CopyContiguous(dst, cs, lens, tchunk, w) == CopyAt(dst, cs, Mul(tchunk, w))
    decreases |cs|
  {
    FlattenLen(cs, lens, w);
    MulAdd(tchunk, SumNat(lens), w);
    if |cs| > 0 {
      MulAdd(tchunk, lens[0], w);
      MulMono(tchunk + lens[0], tchunk + SumNat(lens), w);
      CopyContiguousIsCopyAt(Blit(dst, Mul(tchunk, w), cs[0]), cs[1..], lens[1..],
                             tchunk + lens[0], w);
    }
  }

  /** Row `b` of an `n`-row matrix of width `w`, stored row by row. */
  function RowOf<T>(s: seq<T>, n: nat, w: nat, b: nat): (row: seq<T>)
    requires |s| == Mul(n, w) && b < n
    ensures Mul(b, w) + w <= |s|
    ensures |row| == w
  {
    MulMono(b + 1, n, w);
    s[Mul(b, w) .. Mul(b, w) + w]
  }

  /** Element `k` of row `b` is element `b * w + k` of the matrix. */
  lemma RowAt<T>(s: seq<T>, n: nat, w: nat, b: nat, k: nat)
    requires |s| == Mul(n, w) && b < n && k < w
    ensures Mul(b, w) + k < |s| && RowOf(s, n, w, b)[k] == s[Mul(b, w) + k]
  {
    MulMono(b + 1, n, w);
  }

  /** The row holding index `i` of an `n`-row matrix of width `w`. */
  lemma {:induction false} RowContaining(i: nat, n: nat, w: nat) returns (b: nat)
    requires i < Mul(n, w)
    ensures b < n && Mul(b, w) <= i < Mul(b, w) + w
    decreases n
  {
    if i < Mul(n - 1, w) {
      b := RowContaining(i, n - 1, w);
    } else {
      b := n - 1;
    }
  }

  /** Two matrices with the same rows are equal. */
  lemma RowsDetermine<T>(a: seq<T>, c: seq<T>, n: nat, w: nat)
    requires |a| == Mul(n, w) && |c| == Mul(n, w)
    requires forall b :: 0 <= b < n ==> RowOf(a, n, w, b) == RowOf(c, n, w, b)
    ensures a == c
  {
    forall i | 0 <= i < |a| ensures a[i] == c[i] {
      var b := RowContaining(i, n, w);
      RowAt(a, n, w, b, i - Mul(b, w));
      RowAt(c, n, w, b, i - Mul(b, w));
    }
  }

  /** Copying `x` into row `l` of a matrix at column `t` changes row `l`
      as a copy at `t` would ... */
  lemma BlitSameRow<T>(dst: seq<T>, n: nat, w: nat, l: nat, t: nat, x: seq<T>)
    requires |dst| == Mul(n, w) && l < n && t + |x| <= w
    ensures Mul(l, w) + t + |x| <= |dst|
    ensures RowOf(Blit(dst, Mul(l, w) + t, x), n, w, l) == Blit(RowOf(dst, n, w, l), t, x)
  {
    MulMono(l + 1, n, w);
    var L := Mul(l, w);
    var r := Blit(dst, L + t, x);
    var row := RowOf(dst, n, w, l);
    var lhs := RowOf(r, n, w, l);
    var rhs := Blit(row, t, x);
    forall k | 0 <= k < w ensures lhs[k] == rhs[k] {
      RowAt(r, n, w, l, k);
      RowAt(dst, n, w, l, k);
      BlitAt(dst, L + t, x, L + k);
      BlitAt(row, t, x, k);
    }
  }

  /** ... and no other row. */
  lemma BlitOtherRow<T>(dst: seq<T>, n: nat, w: nat, l: nat, t: nat, x: seq<T>, b: nat)
    requires |dst| == Mul(n, w) && l < n && b < n && b != l && t + |x| <= w
    ensures Mul(l, w) + t + |x| <= |dst|
    ensures RowOf(Blit(dst, Mul(l, w) + t, x), n, w, b) == RowOf(dst, n, w, b)
  {
    MulMono(l + 1, n, w);
    var L := Mul(l, w);
    var B := Mul(b, w);
    if b < l {
      MulMono(b + 1, l, w);
      assert B + w <= L;
    } else {
      MulMono(l + 1, b, w);
      assert L + w <= B;
    }
    var r := Blit(dst, L + t, x);
    var lhs := RowOf(r, n, w, b);
    var rhs := RowOf(dst, n, w, b);
    forall k | 0 <= k < w ensures lhs[k] == rhs[k] {
      RowAt(r, n, w, b, k);
      RowAt(dst, n, w, b, k);
      BlitAt(dst, L + t, x, B + k);
    }
  }

  /** The bolometer-ordered copy of one chunk: for each bolometer `l` from
      `l0` on, its `rlen` samples go to offset `l * tlen + tchunk`. */
  function CopyRows<T>(dst: seq<T>, src: seq<T>, rlen: nat, tchunk: nat, tlen: nat,
                       n: nat, l: nat): (r: seq<T>)
    requires |dst| == Mul(n, tlen) && |src| == Mul(n, rlen) && tchunk + rlen <= tlen
    requires l <= n
    ensures |r| == |dst|
    decreases n - l
  {
    if l == n then dst
    else
      MulMono(l + 1, n, tlen);
      CopyRows(Blit(dst, Mul(l, tlen) + tchunk, RowOf(src, n, rlen, l)), src, rlen, tchunk,
               tlen, n, l + 1)
  }

  /** Rows before `l` are left as they were. */
  lemma {:induction false} CopyRowsBefore<T>(dst: seq<T>, src: seq<T>, rlen: nat, tchunk: nat,
                                             tlen: nat, n: nat, l: nat, b: nat)
    requires |dst| == Mul(n, tlen) && |src| == Mul(n, rlen) && tchunk + rlen <= tlen
    requires b < l <= n
    ensures RowOf(CopyRows(dst, src, rlen, tchunk, tlen, n, l), n, tlen, b)
            == RowOf(dst, n, tlen, b)
    decreases n - l
  {
    if l < n {
      MulMono(l + 1, n, tlen);
      var x := RowOf(src, n, rlen, l);
      var d1 := Blit(dst, Mul(l, tlen) + tchunk, x);
      CopyRowsBefore(d1, src, rlen, tchunk, tlen, n, l + 1, b);
      BlitOtherRow(dst, n, tlen, l, tchunk, x, b);
    }
  }

  /** Row `b`, from `l` on, receives row `b` of the source at column
      `tchunk`. */
  lemma {:induction false} CopyRowsSpec<T>(dst: seq<T>, src: seq<T>, rlen: nat, tchunk: nat,
                                           tlen: nat, n: nat, l: nat, b: nat)
    requires |dst| == Mul(n, tlen) && |src| == Mul(n, rlen) && tchunk + rlen <= tlen
    requires l <= b < n
    ensures RowOf(CopyRows(dst, src, rlen, tchunk, tlen, n, l), n, tlen, b)
            == Blit(RowOf(dst, n, tlen, b), tchunk, RowOf(src, n, rlen, b))
    decreases n - l
  {
    MulMono(l + 1, n, tlen);
    var x := RowOf(src, n, rlen, l);
    var d1 := Blit(dst, Mul(l, tlen) + tchunk, x);
    if b == l {
      CopyRowsBefore(d1, src, rlen, tchunk, tlen, n, l + 1, b);
      BlitSameRow(dst, n, tlen, l, tchunk, x);
    } else {
      CopyRowsSpec(d1, src, rlen, tchunk, tlen, n, l + 1, b);
      BlitOtherRow(dst, n, tlen, l, tchunk, x, b);
    }
  }

  /** The bolometer-ordered copy of all chunks, `tchunk` advancing by each
      chunk's time length. */
  function CopyByBolometer<T>(dst: seq<T>, cs: seq<seq<T>>, lens: seq<nat>, tchunk: nat,
                              tlen: nat, n: nat): (r: seq<T>)
    requires Stacked(cs, lens, n)
    requires |dst| == Mul(n, tlen) && tchunk + SumNat(lens) <= tlen
    ensures |r| == |dst|
    decreases |cs|
  {
    if |cs| == 0 then dst
    else
      CopyByBolometer(CopyRows(dst, cs[0], lens[0], tchunk, tlen, n, 0), cs[1..], lens[1..],
                      tchunk + lens[0], tlen, n)
  }

  /** Row `b` of every block. */
  function RowsOf<T>(cs: seq<seq<T>>, lens: seq<nat>, n: nat, b: nat): (rs: seq<seq<T>>)
    requires Stacked(cs, lens, n) && b < n
    ensures |rs| == |cs|
    ensures |Flatten(rs)| == SumNat(lens)
    decreases |cs|
  {
    if |cs| == 0 then []
    else
      var rs := [RowOf(cs[0], n, lens[0], b)] + RowsOf(cs[1..], lens[1..], n, b);
      assert rs[0] == RowOf(cs[0], n, lens[0], b);
      assert rs[1..] == RowsOf(cs[1..], lens[1..], n, b);
      rs
  }

  /** Row `b` of the bolometer-ordered result is the back-to-back copy of
      row `b` of every chunk into row `b` of the destination, from column
      `tchunk`. */
  lemma {:induction false} CopyByBolometerRow<T>(dst: seq<T>, cs: seq<seq<T>>, lens: seq<nat>,
                                                 tchunk: nat, tlen: nat, n: nat, b: nat)
    requires Stacked(cs, lens, n)
    requires |dst| == Mul(n, tlen) && tchunk + SumNat(lens) <= tlen
    requires b < n
    ensures RowOf(CopyByBolometer(dst, cs, lens, tchunk, tlen, n), n, tlen, b)
            == CopyAt(RowOf(dst, n, tlen, b), RowsOf(cs, lens, n, b), tchunk)
    decreases |cs|
  {
    if |cs| > 0 {
      var d1 := CopyRows(dst, cs[0], lens[0], tchunk, tlen, n, 0);
      CopyRowsSpec(dst, cs[0], lens[0], tchunk, tlen, n, 0, b);
      CopyByBolometerRow(d1, cs[1..], lens[1..], tchunk + lens[0], tlen, n, b);
      var rs := RowsOf(cs, lens, n, b);
      assert rs[0] == RowOf(cs[0], n, lens[0], b);
      assert rs[1..] == RowsOf(cs[1..], lens[1..], n, b);
    }
  }

  /** In bolometer order each bolometer's row of the result is the
      in-order concatenation of that bolometer's rows in the chunks. */
  lemma BoloOrderedRows<T>(dst: seq<T>, cs: seq<seq<T>>, lens: seq<nat>, n: nat, b: nat)
    requires Stacked(cs, lens, n)
    requires |dst| == Mul(n, SumNat(lens)) && b < n
    ensures RowOf(CopyByBolometer(dst, cs, lens, 0, SumNat(lens), n), n, SumNat(lens), b)
            == Flatten(RowsOf(cs, lens, n, b))
  {
    CopyByBolometerRow(dst, cs, lens, 0, SumNat(lens), n, b);
    CopyAtWhole(RowOf(dst, n, SumNat(lens), b), RowsOf(cs, lens, n, b));
  }

  /** In time order the result is the in-order concatenation of the
      chunks. */
  lemma TimeOrderedFlat<T>(dst: seq<T>, cs: seq<seq<T>>, lens: seq<nat>, w: nat)
    requires Blocks(cs, lens, w) && |dst| == Mul(SumNat(lens), w)
    ensures CopyContiguous(dst, cs, lens, 0, w) == Flatten(cs)
  {
    CopyContiguousIsCopyAt(dst, cs, lens, 0, w);
    FlattenLen(cs, lens, w);
    CopyAtWhole(dst, cs);
  }

  /** A freshly allocated array of `count` elements, each `blank`. */
  function Fill<T>(count: nat, blank: T): (r: seq<T>)
    ensures |r| == count
    decreases count
  {
    if count == 0 then [] else [blank] + Fill(count - 1, blank)
  }

  /** Lay out one list of chunk blocks in the requested order into a
      freshly allocated array of `nbolo * tlen` elements, every one of
      which starts as `blank` (the allocation is not initialised). */
  function Layout<T>(cs: seq<seq<T>>, lens: seq<nat>, n: nat, isTordered: bool,
                     blank: T): (r: seq<T>)
    requires Stacked(cs, lens, n)
    ensures |r| == Mul(n, SumNat(lens))
  {
    var tlen := SumNat(lens);
    var dst := Fill(Mul(n, tlen), blank);
    if isTordered then
      StackedBlocks(cs, lens, n);
      MulComm(n, tlen);
      CopyContiguous(dst, cs, lens, 0, n)
    else
      CopyByBolometer(dst, cs, lens, 0, tlen, n)
  }

  /** Both layouts write every element: the result does not depend on what
      the fresh allocation held. In time order it is the concatenation of
      the chunks; in bolometer order each bolometer row is the
      concatenation of that bolometer's rows in the chunks. */
  lemma LayoutSpec<T>(cs: seq<seq<T>>, lens: seq<nat>, n: nat, isTordered: bool,
                      blank1: T, blank2: T)
    requires Stacked(cs, lens, n)
    ensures Layout(cs, lens, n, true, blank1) == Flatten(cs)
    ensures forall b :: 0 <= b < n ==>
              RowOf(Layout(cs, lens, n, false, blank1), n, SumNat(lens), b)
              == Flatten(RowsOf(cs, lens, n, b))
    ensures Layout(cs, lens, n, isTordered, blank1) == Layout(cs, lens, n, isTordered, blank2)
  {
    var tlen := SumNat(lens);
    StackedBlocks(cs, lens, n);
    MulComm(n, tlen);
    var d1 := Fill(Mul(n, tlen), blank1);
    var d2 := Fill(Mul(n, tlen), blank2);
    TimeOrderedFlat(d1, cs, lens, n);
    TimeOrderedFlat(d2, cs, lens, n);
    forall b | 0 <= b < n
      ensures RowOf(Layout(cs, lens, n, false, blank1), n, tlen, b)
              == Flatten(RowsOf(cs, lens, n, b))
      ensures RowOf(Layout(cs, lens, n, false, blank2), n, tlen, b)
              == Flatten(RowsOf(cs, lens, n, b))
    {
      BoloOrderedRows(d1, cs, lens, n, b);
      BoloOrderedRows(d2, cs, lens, n, b);
    }
    RowsDetermine(Layout(cs, lens, n, false, blank1), Layout(cs, lens, n, false, blank2), n, tlen);
  }

  /** `out` holds the chunk blocks `cs` in the requested order: their
      concatenation in time order; in bolometer order, each bolometer row
      the concatenation of that bolometer's rows in the chunks. */
  ghost predicate LaidOut<T>(out: seq<T>, cs: seq<seq<T>>, lens: seq<nat>, n: nat, isTordered: bool) {
    && Stacked(cs, lens, n)
    && |out| == Mul(n, SumNat(lens))
    && (isTordered ==> out == Flatten(cs))
    && (!isTordered ==> forall b :: 0 <= b < n ==>
          RowOf(out, n, SumNat(lens), b) == Flatten(RowsOf(cs, lens, n, b)))
  }

  lemma LayoutIsLaidOut<T>(cs: seq<seq<T>>, lens: seq<nat>, n: nat, isTordered: bool, blank: T)
    requires Stacked(cs, lens, n)
    ensures LaidOut(Layout(cs, lens, n, isTordered, blank), cs, lens, n, isTordered)
  {
    LayoutSpec(cs, lens, n, isTordered, blank, blank);
  }

  // ---------------------------------------------------------------------
  // One subarray, end to end
  // ---------------------------------------------------------------------

  /** What the second pass copies from one chunk, already in the requested
      layout: the DATA, VARIANCE and QUALITY values (only those the header
      marks present are read), the pointing look-up table if one was
      computed, and one state record per time slice. */
  datatype ChunkData<V, L, S> = ChunkData(arrays: seq<seq<V>>, lut: seq<L>, state: seq<S>)

  /** A chunk's data agree in size with its header: `nbolo * tlen` values
      per present component and in the table, one state record per time
      slice. */
  predicate DataFits<V, L, S>(h: ChunkHeader, d: ChunkData<V, L, S>, withLut: bool)
    requires ShapeOk(h)
  {
    && |d.arrays| == NCOMP
    && (forall k :: 0 <= k < NCOMP && h.present[k] ==>
          |d.arrays[k]| == Mul(h.dims[0] * h.dims[1], h.dims[2]))
    && |d.state| == h.dims[2]
    && (withLut ==> |d.lut| == Mul(h.dims[0] * h.dims[1], h.dims[2]))
  }

  /** Every 3-D time-ordered chunk's data fit its header. */
  predicate AllFit<V, L, S>(hs: seq<ChunkHeader>, ds: seq<ChunkData<V, L, S>>, withLut: bool) {
    |ds| == |hs| && forall j :: 0 <= j < |hs| && ShapeOk(hs[j]) ==> DataFits(hs[j], ds[j], withLut)
  }

  /** The concatenated subarray. */
  datatype Concatenated<V, L, S> = Concatenated(dims: seq<nat>, isTordered: bool, dtype: nat,
                                                arrays: seq<Option<seq<V>>>,
                                                lut: Option<seq<L>>, state: seq<S>)

  datatype SubarrayResult<V, L, S> =
    | SubarrayRefused(chunk: nat, problems: seq<Problem>)
    | SubarrayDone(data: Concatenated<V, L, S>)

  /** Whether a pointing look-up table is built and copied: only when LUT
      creation is not suppressed by the flags and an output frame set is
      supplied. */
  function HaveLut(noCreateLut: bool, haveOutFset: bool): bool {
    if noCreateLut then false else haveOutFset
  }

  /** The source's `havelut` flag: it is assigned only when the table is
      requested, and otherwise keeps whatever the uninitialised variable
      happens to hold (`indeterminate`). */
  function HaveLutAsWritten(noCreateLut: bool, haveOutFset: bool, indeterminate: bool): bool {
    if !noCreateLut && haveOutFset then true else indeterminate
  }

  /** With LUT creation suppressed, the as-written flag can still claim a
      table, so the copy would read a table no chunk computed; where the
      table is requested the two agree. */
  lemma HaveLutUninitialised()
    ensures HaveLutAsWritten(true, true, true) && !HaveLut(true, true)
    ensures forall nc: bool, fs: bool, x: bool :: HaveLut(nc, fs) ==> HaveLutAsWritten(nc, fs, x)
  {
  }

  /** One component's block of every chunk. */
  function Component<V, L, S>(ds: seq<ChunkData<V, L, S>>, k: nat): (cs: seq<seq<V>>)
    requires forall j :: 0 <= j < |ds| ==> |ds[j].arrays| == NCOMP
    requires k < NCOMP
    ensures |cs| == |ds| && forall j :: 0 <= j < |ds| ==> cs[j] == ds[j].arrays[k]
    decreases |ds|
  {
    if |ds| == 0 then [] else [ds[0].arrays[k]] + Component(ds[1..], k)
  }

  function Luts<V, L, S>(ds: seq<ChunkData<V, L, S>>): (cs: seq<seq<L>>)
    ensures |cs| == |ds| && forall j :: 0 <= j < |ds| ==> cs[j] == ds[j].lut
    decreases |ds|
  {
    if |ds| == 0 then [] else [ds[0].lut] + Luts(ds[1..])
  }

  function States<V, L, S>(ds: seq<ChunkData<V, L, S>>): (cs: seq<seq<S>>)
    ensures |cs| == |ds| && forall j :: 0 <= j < |ds| ==> cs[j] == ds[j].state
    decreases |ds|
  {
    if |ds| == 0 then [] else [ds[0].state] + States(ds[1..])
  }

  /** Once the first pass accepts, every chunk's blocks have the sizes
      the copy expects. */
  lemma AcceptedStacked<V, L, S>(hs: seq<ChunkHeader>, ds: seq<ChunkData<V, L, S>>, withLut: bool)
    requires AllWellFormed(hs) && |hs| > 0 && AllFit(hs, ds, withLut) && Validate(hs).Accepted?
    ensures forall j :: 0 <= j < |hs| ==> ShapeOk(hs[j]) && DataFits(hs[j], ds[j], withLut)
    ensures forall k :: 0 <= k < NCOMP && hs[0].present[k] ==>
              Stacked(Component(ds, k), TimeLens(hs), hs[0].dims[0] * hs[0].dims[1])
    ensures withLut ==> Stacked(Luts(ds), TimeLens(hs), hs[0].dims[0] * hs[0].dims[1])
    ensures Stacked(States(ds), TimeLens(hs), 1)
  {
    var nbolo := hs[0].dims[0] * hs[0].dims[1];
    assert forall j :: 0 <= j < |hs| ==>
             ShapeOk(hs[j]) && hs[j].present == hs[0].present
             && hs[j].dims[0] * hs[j].dims[1] == nbolo;
    var lens := TimeLens(hs);
    forall j | 0 <= j < |hs| ensures |ds[j].state| == Mul(1, lens[j]) {
      MulComm(1, lens[j]);
      MulOne(lens[j]);
    }
  }

  /** `data` is the concatenation of the accepted chunks `hs`/`ds`: the
      first chunk's detector dimensions and data type, the summed time
      length, exactly the components the chunks have, a table exactly
      when one is requested, the state records of all chunks in order, and
      every array holding the chunks' values laid out in the requested
      order. */
  ghost predicate Describes<V, L, S>(data: Concatenated<V, L, S>, hs: seq<ChunkHeader>,
                                     ds: seq<ChunkData<V, L, S>>, isTordered: bool, withLut: bool)
    requires AllWellFormed(hs) && |hs| > 0 && AllFit(hs, ds, withLut) && Validate(hs).Accepted?
  {
    var nx := hs[0].dims[0];
    var ny := hs[0].dims[1];
    var lens := TimeLens(hs);
    var tlen := SumNat(lens);
    && data.dims == (if isTordered then [nx, ny, tlen] else [tlen, nx, ny])
    && data.isTordered == isTordered && data.dtype == hs[0].dtype
    && |data.arrays| == NCOMP
    && (forall k :: 0 <= k < NCOMP ==> (data.arrays[k].Some? <==> hs[0].present[k]))
    && (forall k :: 0 <= k < NCOMP && hs[0].present[k] ==>
          LaidOut(data.arrays[k].value, Component(ds, k), lens, nx * ny, isTordered))
    && (data.lut.Some? <==> withLut)
    && (withLut ==> LaidOut(data.lut.value, Luts(ds), lens, nx * ny, isTordered))
    && data.state == Flatten(States(ds))
  }

  /** A component's concatenated array, if the chunks have that
      component. */
  function LayoutIf<T>(present: bool, cs: seq<seq<T>>, lens: seq<nat>, n: nat,
                       isTordered: bool, blank: T): (r: Option<seq<T>>)
    requires present ==> Stacked(cs, lens, n)
    ensures r.Some? <==> present
  {
    if present then Some(Layout(cs, lens, n, isTordered, blank)) else None
  }

  /** Both passes over one subarray's chunks: the first pass's refusal,
      or the chunks copied into one array per component, one table and
      one state array. */
  function ConcatSubarray<V, L, S>(hs: seq<ChunkHeader>, ds: seq<ChunkData<V, L, S>>,
                                   isTordered: bool, withLut: bool,
                                   blank: V, blankL: L, blankS: S): (r: SubarrayResult<V, L, S>)
    requires AllWellFormed(hs) && |hs| > 0 && AllFit(hs, ds, withLut)
    ensures r.SubarrayRefused? <==> Validate(hs).Refused?
    ensures r.SubarrayRefused? ==>
              r.chunk == Validate(hs).chunk && r.problems == Validate(hs).problems
  {
    var v := Validate(hs);
    if v.Refused? then SubarrayRefused(v.chunk, v.problems)
    else
      AcceptedStacked(hs, ds, withLut);
      var nbolo := v.nx * v.ny;
      var lens := TimeLens(hs);
      var tlen := SumNat(lens);
      var arrays := seq(NCOMP, k requires 0 <= k < NCOMP =>
                          LayoutIf(v.present[k], Component(ds, k), lens, nbolo, isTordered, blank));
      var lut := if withLut then Some(Layout(Luts(ds), lens, nbolo, isTordered, blankL)) else None;
      var state := Layout(States(ds), lens, 1, true, blankS);
      SubarrayDone(Concatenated(if isTordered then [v.nx, v.ny, tlen] else [tlen, v.nx, v.ny],
                                isTordered, v.dtype, arrays, lut, state))
  }

  /** What the second pass produces is the concatenation of the chunks. */
  lemma ConcatSubarraySpec<V, L, S>(hs: seq<ChunkHeader>, ds: seq<ChunkData<V, L, S>>,
                                    isTordered: bool, withLut: bool,
                                    blank: V, blankL: L, blankS: S)
    requires AllWellFormed(hs) && |hs| > 0 && AllFit(hs, ds, withLut)
    ensures ConcatSubarray(hs, ds, isTordered, withLut, blank, blankL, blankS).SubarrayDone? ==>
              Describes(ConcatSubarray(hs, ds, isTordered, withLut, blank, blankL, blankS).data,
                        hs, ds, isTordered, withLut)
  {
    if Validate(hs).Accepted? {
      AcceptedStacked(hs, ds, withLut);
      var nbolo := hs[0].dims[0] * hs[0].dims[1];
      var lens := TimeLens(hs);
      forall k | 0 <= k < NCOMP && hs[0].present[k]
        ensures LaidOut(Layout(Component(ds, k), lens, nbolo, isTordered, blank),
                        Component(ds, k), lens, nbolo, isTordered)
      {
        LayoutIsLaidOut(Component(ds, k), lens, nbolo, isTordered, blank);
      }
      if withLut {
        LayoutIsLaidOut(Luts(ds), lens, nbolo, isTordered, blankL);
      }
      LayoutIsLaidOut(States(ds), lens, 1, true, blankS);
    }
  }

  // ---------------------------------------------------------------------
  // The whole group
  // ---------------------------------------------------------------------

  /** The chunk headers and data of every subarray fit together:
      `hss[i]` and `dss[i]` are what opening the files
      `subgroups[0][i], subgroups[1][i], ...` yields. */
  predicate GroupFits<V, L, S>(hss: seq<seq<ChunkHeader>>, dss: seq<seq<ChunkData<V, L, S>>>,
                               ngroups: nat, nrelated: nat, withLut: bool)
  {
    && |hss| == nrelated && |dss| == nrelated
    && (forall i :: 0 <= i < nrelated ==>
          |hss[i]| == ngroups && AllWellFormed(hss[i]) && AllFit(hss[i], dss[i], withLut))
  }

  /** Outcome of concatenating a group's subarrays. */
  datatype GroupResult<V, L, S> = GroupResult(out: seq<Concatenated<V, L, S>>,
                                              refused: Option<(nat, nat, seq<Problem>)>)

  /** Keeps the concatenated subarrays up to the first refusal, which is
      reported with the subarray's index. */
  function Collect<V, L, S>(rs: seq<SubarrayResult<V, L, S>>, i: nat): (g: GroupResult<V, L, S>)
    ensures g.refused.None? ==> |g.out| == |rs| && forall k :: 0 <= k < |rs| ==> rs[k].SubarrayDone?
    ensures g.refused.Some? ==>
              var (c, j, ps) := g.refused.value;
              i <= c < i + |rs| && |g.out| == c - i && rs[c - i] == SubarrayRefused(j, ps)
    ensures forall k :: 0 <= k < |g.out| ==> rs[k] == SubarrayDone(g.out[k])
    decreases |rs|
  {
    if |rs| == 0 then GroupResult([], None)
    else if rs[0].SubarrayRefused? then GroupResult([], Some((i, rs[0].chunk, rs[0].problems)))
    else
      var rest := Collect(rs[1..], i + 1);
      GroupResult([rs[0].data] + rest.out, rest.refused)
  }

  /** The concatenation of a whole group: the subarrays actually present
      are counted, then concatenated one after the other until one is
      refused; the subarrays already concatenated are kept. (Each
      subarray's concatenation depends only on its own chunks, so
      computing them all and keeping those before the first refusal gives
      what the sequential loop gives.) */
  method ConcatGroup<V, L, S>(subgroups: seq<seq<int>>, nrelated: nat,
                              hss: seq<seq<ChunkHeader>>, dss: seq<seq<ChunkData<V, L, S>>>,
                              isTordered: bool, noCreateLut: bool, haveOutFset: bool,
                              blank: V, blankL: L, blankS: S)
    returns (n: nat, g: GroupResult<V, L, S>)
    requires Rectangular(subgroups, nrelated)
    requires GroupFits(hss, dss, |subgroups|, nrelated, HaveLut(noCreateLut, haveOutFset))
    ensures n <= nrelated
    ensures n > 0 ==> Used(subgroups, nrelated, n - 1)
    ensures forall i :: n <= i < nrelated ==> !Used(subgroups, nrelated, i)
    ensures g.refused.None? ==> |g.out| == n
    ensures g.refused.Some? ==>
              var (i, c, ps) := g.refused.value;
              i < n && |g.out| == i && |subgroups| > 0 && Validate(hss[i]) == Refused(c, ps)
    ensures forall i :: 0 <= i < |g.out| ==>
              i < n && |subgroups| > 0 && Validate(hss[i]).Accepted?
              && Describes(g.out[i], hss[i], dss[i], isTordered, HaveLut(noCreateLut, haveOutFset))
    ensures forall i :: 0 <= i < |g.out| ==> (g.out[i].lut.Some? <==> !noCreateLut && haveOutFset)
  {
    n := CountRelated(subgroups, nrelated);
    var withLut := HaveLut(noCreateLut, haveOutFset);
    var rs: seq<SubarrayResult<V, L, S>> := [];
    var i := 0;
    while i < n
      invariant 0 <= i <= n && |rs| == i
      invariant forall i' :: 0 <= i' < i ==>
                  rs[i'] == ConcatSubarray(hss[i'], dss[i'], isTordered, withLut,
                                           blank, blankL, blankS)
    {
      rs := rs + [ConcatSubarray(hss[i], dss[i], isTordered, withLut, blank, blankL, blankS)];
      i := i + 1;
    }
    g := Collect(rs, 0);
    forall i | 0 <= i < |g.out|
      ensures i < n && |subgroups| > 0 && Validate(hss[i]).Accepted?
      ensures Describes(g.out[i], hss[i], dss[i], isTordered, withLut)
    {
      ConcatSubarraySpec(hss[i], dss[i], isTordered, withLut, blank, blankL, blankS);
    }
  }
}
