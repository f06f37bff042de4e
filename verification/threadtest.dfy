/** The scheduling and indexing logic of the SCUBA-2 threading test
    (`smurf_sc2threadtest`): how time chunks are divided among threads,
    which chunks a worker visits, the size of each generated data block,
    and the three single-threaded array index loops. */
module ThreadTest {
  import opened Common

  // ---------------------------------------------------------------------
  // Dividing chunks among threads
  // ---------------------------------------------------------------------

  /** The chunks per thread: `nchunks / nthread`, but at least one. */
  function JobLen(nchunks: nat, nthread: nat): (joblen: nat)
    requires nthread >= 1
    ensures joblen >= 1
    ensures nchunks >= nthread ==> Mul(nthread, joblen) <= nchunks < Mul(nthread, joblen + 1)
    ensures nchunks < nthread ==> joblen == 1
  {
    var q := nchunks / nthread;
    MulIsProduct(nthread, q);
    MulIsProduct(nthread, q + 1);
    if q == 0 then 1 else q
  }

  /** With at least as many chunks as threads the job length is the only
      count `j` for which `nthread` jobs of `j` chunks fit in `nchunks`
      but `nthread` jobs of `j + 1` do not: the quotient
      `nchunks / nthread`. */
  lemma JobLenIsQuotient(nchunks: nat, nthread: nat, j: nat)
    requires nthread >= 1 && nchunks >= nthread
    requires Mul(nthread, j) <= nchunks < Mul(nthread, j + 1)
    ensures JobLen(nchunks, nthread) == j
  {
    var q := JobLen(nchunks, nthread);
    if j < q {
      MulComm(nthread, j + 1);
      MulComm(nthread, q);
      MulMono(j + 1, q, nthread);
    } else if q < j {
      MulComm(nthread, q + 1);
      MulComm(nthread, j);
      MulMono(q + 1, j, nthread);
    }
  }

  /** One thread's job: its first and last chunk. */
  datatype Job = Job(chunk1: nat, chunk2: nat)

  /** The job of thread `i`, after the range is clamped: a thread whose
      first chunk is past the end is marked with `chunk1 == chunk2 ==
      nchunks`. */
  function Assign(i: nat, nchunks: nat, nthread: nat): (job: Job)
    requires nthread >= 1 && nchunks >= 1 && i < nthread
    ensures job.chunk1 >= nchunks ==> job == Job(nchunks, nchunks)
    ensures job.chunk1 < nchunks ==> job.chunk1 <= job.chunk2 < nchunks
  {
    var joblen := JobLen(nchunks, nthread);
    var c1 := Mul(i, joblen);
    var c2 := if i == nthread - 1 then nchunks - 1 else Mul(i + 1, joblen) - 1;
    assert Mul(i + 1, joblen) == Mul(i, joblen) + joblen;
    if c1 >= nchunks then Job(nchunks, nchunks)
    else if c2 >= nchunks then Job(c1, nchunks - 1)
    else Job(c1, c2)
  }

  /** Jobs whose first chunk lies in range are submitted to the pool. */
  predicate Submitted(job: Job, nchunks: nat) {
    job.chunk1 < nchunks
  }

  /** The worker's loop condition: chunk `c` is processed by `job`. */
  predicate Visits(job: Job, nchunks: nat, c: nat) {
    job.chunk1 <= c <= job.chunk2 && c < nchunks
  }

  /** The chunks a worker processes, in order (`smfParallelTime`). */
  method WorkerChunks(job: Job, nchunks: nat) returns (visited: seq<nat>)
    ensures forall c :: c in visited <==> Visits(job, nchunks, c)
    ensures forall k :: 0 <= k < |visited| ==> visited[k] == job.chunk1 + k
  {
    visited := [];
    var i := job.chunk1;
    while i <= job.chunk2 && i < nchunks
      invariant job.chunk1 <= i
      invariant i == job.chunk1 || (i <= job.chunk2 + 1 && i <= nchunks)
      invariant |visited| == i - job.chunk1
      invariant forall k :: 0 <= k < |visited| ==> visited[k] == job.chunk1 + k
      decreases nchunks - i
    {
      visited := visited + [i];
      i := i + 1;
    }
    forall c: nat ensures c in visited <==> Visits(job, nchunks, c) {
      if job.chunk1 <= c < i {
        assert visited[c - job.chunk1] == c;
      }
    }
  }

  /** The number of threads that get work: those whose first chunk
      `i * joblen` is in range. */
  function Busy(nchunks: nat, nthread: nat, i: nat): (k: nat)
    requires nthread >= 1 && i <= nthread
    ensures k <= i
    decreases i
  {
    if i == 0 then 0
    else if Mul(i - 1, JobLen(nchunks, nthread)) < nchunks then i
    else Busy(nchunks, nthread, i - 1)
  }

  /** Threads are busy up to a point and idle after it. */
  lemma {:induction false} BusyPrefix(nchunks: nat, nthread: nat, i: nat, t: nat)
    requires nthread >= 1 && i <= nthread && t < i
    ensures Mul(t, JobLen(nchunks, nthread)) < nchunks <==> t < Busy(nchunks, nthread, i)
    decreases i
  {
    var joblen := JobLen(nchunks, nthread);
    if Mul(i - 1, joblen) < nchunks {
      if t < i - 1 {
        MulMono(t, i - 1, joblen);
      }
    } else if t < i - 1 {
      BusyPrefix(nchunks, nthread, i - 1, t);
    }
  }

  /** The ranges of the threads, as spans. */
  function Spans(nchunks: nat, nthread: nat, k: nat): (rs: seq<Span>)
    requires nthread >= 1 && nchunks >= 1 && k <= nthread
    ensures |rs| == k
  {
    seq(k, i requires 0 <= i < k => Span(Assign(i, nchunks, nthread).chunk1,
                                          Assign(i, nchunks, nthread).chunk2))
  }

  /** The first thread is always busy; the first idle thread, if any,
      starts past the last chunk. */
  lemma BusyBounds(nchunks: nat, nthread: nat)
    requires nthread >= 1 && nchunks >= 1
    ensures 1 <= Busy(nchunks, nthread, nthread) <= nthread
    ensures forall t :: 0 <= t < nthread ==>
              (Mul(t, JobLen(nchunks, nthread)) < nchunks <==> t < Busy(nchunks, nthread, nthread))
  {
    forall t | 0 <= t < nthread
      ensures Mul(t, JobLen(nchunks, nthread)) < nchunks <==> t < Busy(nchunks, nthread, nthread)
    {
      BusyPrefix(nchunks, nthread, nthread, t);
    }
    assert Mul(0, JobLen(nchunks, nthread)) == 0;
  }

  /** A busy thread that is not the last busy one ends just before the
      next thread's first chunk. */
  lemma AssignInner(i: nat, nchunks: nat, nthread: nat)
    requires nthread >= 1 && nchunks >= 1 && i + 1 < Busy(nchunks, nthread, nthread)
    ensures var joblen := JobLen(nchunks, nthread);
            Assign(i, nchunks, nthread) == Job(Mul(i, joblen), Mul(i + 1, joblen) - 1)
  {
    BusyBounds(nchunks, nthread);
  }

  /** The last busy thread ends at the last chunk. */
  lemma AssignLast(nchunks: nat, nthread: nat)
    requires nthread >= 1 && nchunks >= 1
    ensures Busy(nchunks, nthread, nthread) >= 1
            && var i := Busy(nchunks, nthread, nthread) - 1;
               Assign(i, nchunks, nthread) == Job(Mul(i, JobLen(nchunks, nthread)), nchunks - 1)
  {
    BusyBounds(nchunks, nthread);
    var k := Busy(nchunks, nthread, nthread);
    var joblen := JobLen(nchunks, nthread);
    if k < nthread {
      assert Mul(k, joblen) >= nchunks;
      assert Mul(k, joblen) == Mul(k - 1, joblen) + joblen;
    }
  }

  /** The submitted threads are the first `Busy` ones. */
  lemma SubmittedPrefix(nchunks: nat, nthread: nat, i: nat)
    requires nthread >= 1 && nchunks >= 1 && i < nthread
    ensures Submitted(Assign(i, nchunks, nthread), nchunks) <==> i < Busy(nchunks, nthread, nthread)
  {
    BusyBounds(nchunks, nthread);
  }

  /** The submitted threads' ranges are ascending, adjacent and cover
      every chunk. */
  lemma ScheduleTiles(nchunks: nat, nthread: nat)
    requires nthread >= 1 && nchunks >= 1
    ensures Tiles(Spans(nchunks, nthread, Busy(nchunks, nthread, nthread)), nchunks)
  {
    BusyBounds(nchunks, nthread);
    var k := Busy(nchunks, nthread, nthread);
    var joblen := JobLen(nchunks, nthread);
    var rs := Spans(nchunks, nthread, k);
    AssignLast(nchunks, nthread);
    if k > 1 {
      AssignInner(0, nchunks, nthread);
    }
    assert Mul(0, joblen) == 0;
    assert rs[0].first == 0;
    forall i | 0 <= i < k ensures rs[i].first <= rs[i].last {
      assert rs[i] == Span(Assign(i, nchunks, nthread).chunk1, Assign(i, nchunks, nthread).chunk2);
    }
    forall i | 0 < i < k ensures rs[i].first == rs[i - 1].last + 1 {
      AssignInner(i - 1, nchunks, nthread);
      if i + 1 < k {
        AssignInner(i, nchunks, nthread);
      }
      assert Mul(i, joblen) == Mul(i - 1, joblen) + joblen;
    }
  }

  /** Every chunk is processed by exactly one thread, only chunks that
      exist are processed, and a thread that is not submitted would
      process nothing. */
  lemma EachChunkOnce(nchunks: nat, nthread: nat, c: nat)
    requires nthread >= 1 && nchunks >= 1
    ensures c < nchunks <==> exists i :: 0 <= i < nthread && Visits(Assign(i, nchunks, nthread), nchunks, c)
    ensures forall i, i' ::
              (0 <= i < nthread && 0 <= i' < nthread
               && Visits(Assign(i, nchunks, nthread), nchunks, c)
               && Visits(Assign(i', nchunks, nthread), nchunks, c)) ==> i == i'
    ensures forall i :: 0 <= i < nthread && !Submitted(Assign(i, nchunks, nthread), nchunks)
              ==> !Visits(Assign(i, nchunks, nthread), nchunks, c)
  {
    ScheduleTiles(nchunks, nthread);
    BusyBounds(nchunks, nthread);
    var k := Busy(nchunks, nthread, nthread);
    var rs := Spans(nchunks, nthread, k);
    TilesCover(rs, nchunks, c);
    forall i | 0 <= i < nthread && !Submitted(Assign(i, nchunks, nthread), nchunks)
      ensures !Visits(Assign(i, nchunks, nthread), nchunks, c)
    {
    }
    forall i | 0 <= i < nthread && Visits(Assign(i, nchunks, nthread), nchunks, c)
      ensures i < k && InSpan(rs[i], c)
    {
      SubmittedPrefix(nchunks, nthread, i);
    }
    if c < nchunks {
      var i :| 0 <= i < |rs| && InSpan(rs[i], c);
      assert Visits(Assign(i, nchunks, nthread), nchunks, c);
    }
    forall i, i' | 0 <= i < nthread && 0 <= i' < nthread
      && Visits(Assign(i, nchunks, nthread), nchunks, c)
      && Visits(Assign(i', nchunks, nthread), nchunks, c)
      ensures i == i'
    {
      assert InSpan(rs[i], c) && InSpan(rs[i'], c);
    }
  }

  // ---------------------------------------------------------------------
  // Generated data
  // ---------------------------------------------------------------------

  /** The product of the dimensions. */
  function Product(dims: seq<nat>): nat
    decreases |dims|
  {
    if |dims| == 0 then 1 else Product(dims[..|dims| - 1]) * dims[|dims| - 1]
  }

  /** The element count of a block, multiplied up dimension by dimension. */
  method DataLen(dims: seq<nat>) returns (datalen: nat)
    ensures datalen == Product(dims)
  {
    datalen := 1;
    var j := 0;
    while j < |dims|
      invariant j <= |dims| && datalen == Product(dims[..j])
    {
      assert dims[..j + 1][..j] == dims[..j];
      datalen := datalen * dims[j];
      j := j + 1;
    }
    assert dims[..j] == dims;
  }

  /** The dimensions of every generated block: 40 by 32 bolometers and
      `tsteps` time slices. */
  function BlockDims(tsteps: nat): seq<nat> {
    [40, 32, tsteps]
  }

  lemma BlockSize(tsteps: nat)
    ensures Product(BlockDims(tsteps)) == 1280 * tsteps
  {
    var d := BlockDims(tsteps);
    assert d[..2][..1] == [40] && d[..2] == [40, 32];
    assert Product([40]) == 40;
  }

  // ---------------------------------------------------------------------
  // Array index tests
  // ---------------------------------------------------------------------

  /** The indices of bolometer `i`'s samples, in time order. */
  function IndexRow(i: nat, ntslice: nat, bstride: nat, tstride: nat): (row: seq<nat>)
    ensures |row| == ntslice
  {
    seq(ntslice, j requires 0 <= j < ntslice => Mul(i, bstride) + Mul(j, tstride))
  }

  /** The indices of every sample, bolometer by bolometer. */
  function IndexGrid(nbolo: nat, ntslice: nat, bstride: nat, tstride: nat): seq<nat>
    decreases nbolo
  {
    if nbolo == 0 then []
    else IndexGrid(nbolo - 1, ntslice, bstride, tstride) + IndexRow(nbolo - 1, ntslice, bstride, tstride)
  }

  /** Test 1: two multiplications in the inner loop. */
  method Test1(nbolo: nat, ntslice: nat, bstride: nat, tstride: nat) returns (visited: seq<nat>)
    ensures visited == IndexGrid(nbolo, ntslice, bstride, tstride)
  {
    visited := [];
    var i := 0;
    while i < nbolo
      invariant i <= nbolo && visited == IndexGrid(i, ntslice, bstride, tstride)
    {
      var row := IndexRow(i, ntslice, bstride, tstride);
      var j := 0;
      while j < ntslice
        invariant j <= ntslice && visited == IndexGrid(i, ntslice, bstride, tstride) + row[..j]
      {
        assert row[..j + 1] == row[..j] + [row[j]];
        visited := visited + [Mul(i, bstride) + Mul(j, tstride)];
        j := j + 1;
      }
      assert row[..j] == row;
      i := i + 1;
    }
  }

  /** Test 2: only additions; the outer index steps by `bstride` up to
      `nbolo * bstride`, the inner one by `tstride`. */
  method Test2(nbolo: nat, ntslice: nat, bstride: nat, tstride: nat) returns (visited: seq<nat>)
    ensures bstride >= 1 && tstride >= 1 ==> visited == IndexGrid(nbolo, ntslice, bstride, tstride)
    ensures bstride == 0 || tstride == 0 ==> visited == []
  {
    visited := [];
    var i := 0;
    ghost var b := 0;
    MulZero(nbolo);
    while i < Mul(nbolo, bstride)
      invariant b <= nbolo && i == Mul(b, bstride)
      invariant tstride >= 1 ==> visited == IndexGrid(b, ntslice, bstride, tstride)
      invariant bstride == 0 || tstride == 0 ==> visited == []
      decreases Mul(nbolo, bstride) - i
    {
      var row := Test2Row(i, ntslice, tstride);
      assert tstride >= 1 ==> row == IndexRow(b, ntslice, bstride, tstride);
      visited := visited + row;
      i := i + bstride;
      b := b + 1;
    }
    if bstride >= 1 {
      StepsReached(b, nbolo, bstride);
    }
  }

  /** `n` indices from `start`, `stride` apart. */
  function Steps(start: nat, n: nat, stride: nat): (r: seq<nat>)
    ensures |r| == n
    decreases n
  {
    if n == 0 then [] else Steps(start, n - 1, stride) + [start + Mul(n - 1, stride)]
  }

  lemma {:induction false} StepsAt(start: nat, n: nat, stride: nat, k: nat)
    requires k < n
    ensures Steps(start, n, stride)[k] == start + Mul(k, stride)
    decreases n
  {
    if k < n - 1 {
      StepsAt(start, n - 1, stride, k);
    }
  }

  /** Test 2's inner loop: from `start`, step by `tstride` while below
      `start + ntslice * tstride`. */
  method Test2Row(start: nat, ntslice: nat, tstride: nat) returns (row: seq<nat>)
    ensures tstride >= 1 ==> |row| == ntslice
    ensures tstride >= 1 ==> forall t :: 0 <= t < ntslice ==> row[t] == start + Mul(t, tstride)
    ensures tstride == 0 ==> row == []
  {
    row := [];
    var j := start;
    var stop := start + Mul(ntslice, tstride);
    ghost var t := 0;
    MulZero(ntslice);
    while j < stop
      invariant t <= ntslice && j == start + Mul(t, tstride) && row == Steps(start, t, tstride)
      invariant tstride == 0 ==> t == 0
      decreases stop - j
    {
      MulZero(t);
      MulSucc(t, tstride);
      row := row + [j];
      j := j + tstride;
      t := t + 1;
    }
    if tstride >= 1 {
      StepsReached(t, ntslice, tstride);
      forall k | 0 <= k < ntslice ensures row[k] == start + Mul(k, tstride) {
        StepsAt(start, ntslice, tstride, k);
      }
    }
  }

  /** A count of `tstride` steps that reaches `ntslice` steps is `ntslice`. */
  lemma StepsReached(t: nat, n: nat, stride: nat)
    requires stride >= 1 && t <= n && Mul(t, stride) >= Mul(n, stride)
    ensures t == n
  {
    if t < n {
      assert Mul(t + 1, stride) == Mul(t, stride) + stride;
      MulMono(t + 1, n, stride);
    }
  }

  /** Test 3 as written: the offset already includes `j * tstride`, and
      `j` is added once more. */
  function Test3AsWrittenRow(i: nat, ntslice: nat, bstride: nat, tstride: nat): (row: seq<nat>)
    ensures |row| == ntslice
  {
    seq(ntslice, j requires 0 <= j < ntslice => Mul(i, bstride) + Mul(j, tstride) + j)
  }

  function Test3AsWritten(nbolo: nat, ntslice: nat, bstride: nat, tstride: nat): seq<nat>
    decreases nbolo
  {
    if nbolo == 0 then []
    else Test3AsWritten(nbolo - 1, ntslice, bstride, tstride)
         + Test3AsWrittenRow(nbolo - 1, ntslice, bstride, tstride)
  }

  /** In the bolometer-ordered layout (`bstride == ntslice`, `tstride ==
      1`) test 3 as written writes past the end of the `nbolo * ntslice`
      block as soon as there are two time slices. */
  lemma Test3AsWrittenOverruns(nbolo: nat, ntslice: nat)
    requires nbolo >= 1 && ntslice >= 2
    ensures exists k :: 0 <= k < |Test3AsWritten(nbolo, ntslice, ntslice, 1)|
              && Test3AsWritten(nbolo, ntslice, ntslice, 1)[k] >= Mul(nbolo, ntslice)
  {
    var prev := Test3AsWritten(nbolo - 1, ntslice, ntslice, 1);
    var row := Test3AsWrittenRow(nbolo - 1, ntslice, ntslice, 1);
    var all := Test3AsWritten(nbolo, ntslice, ntslice, 1);
    assert all == prev + row;
    LastOfRow(nbolo - 1, ntslice);
    var k := |prev| + ntslice - 1;
    assert all[k] == row[ntslice - 1];
  }

  /** The last index of bolometer `i`'s row, as written, lies at or past
      the start of bolometer `i + 1`. */
  lemma LastOfRow(i: nat, ntslice: nat)
    requires ntslice >= 2
    ensures Test3AsWrittenRow(i, ntslice, ntslice, 1)[ntslice - 1] >= Mul(i + 1, ntslice)
  {
    MulOne(ntslice - 1);
    assert Mul(i + 1, ntslice) == Mul(i, ntslice) + ntslice;
  }

  /** Test 3 with the offset used as intended: one multiplication per
      bolometer, then only additions. */
  method Test3(nbolo: nat, ntslice: nat, bstride: nat, tstride: nat) returns (visited: seq<nat>)
    ensures visited == IndexGrid(nbolo, ntslice, bstride, tstride)
  {
    visited := [];
    var i := 0;
    while i < nbolo
      invariant i <= nbolo && visited == IndexGrid(i, ntslice, bstride, tstride)
    {
      var row := IndexRow(i, ntslice, bstride, tstride);
      var offset := Mul(i, bstride);
      var j := 0;
      while j < ntslice
        invariant j <= ntslice && offset == Mul(i, bstride) + Mul(j, tstride)
        invariant visited == IndexGrid(i, ntslice, bstride, tstride) + row[..j]
      {
        assert row[..j + 1] == row[..j] + [row[j]];
        visited := visited + [offset];
        offset := offset + tstride;
        j := j + 1;
      }
      assert row[..j] == row;
      i := i + 1;
    }
  }

  /** Test 3 as written differs from tests 1 and 2 whenever a bolometer
      has two time slices and `tstride` is the actual step. */
  lemma Test3AsWrittenDiffers(nbolo: nat, ntslice: nat, bstride: nat, tstride: nat)
    requires nbolo >= 1 && ntslice >= 2
    ensures Test3AsWritten(nbolo, ntslice, bstride, tstride) != IndexGrid(nbolo, ntslice, bstride, tstride)
  {
    var a := Test3AsWritten(nbolo - 1, ntslice, bstride, tstride);
    var g := IndexGrid(nbolo - 1, ntslice, bstride, tstride);
    SameLength(nbolo - 1, ntslice, bstride, tstride);
    var k := |a| + 1;
    assert (a + Test3AsWrittenRow(nbolo - 1, ntslice, bstride, tstride))[k]
           == Test3AsWrittenRow(nbolo - 1, ntslice, bstride, tstride)[1];
    assert (g + IndexRow(nbolo - 1, ntslice, bstride, tstride))[k]
           == IndexRow(nbolo - 1, ntslice, bstride, tstride)[1];
  }

  lemma {:induction false} SameLength(nbolo: nat, ntslice: nat, bstride: nat, tstride: nat)
    ensures |Test3AsWritten(nbolo, ntslice, bstride, tstride)| == |IndexGrid(nbolo, ntslice, bstride, tstride)|
    decreases nbolo
  {
    if nbolo > 0 {
      SameLength(nbolo - 1, ntslice, bstride, tstride);
    }
  }
}
