/**
 The two copy engines of fwatch sync: linked READ -> WRITE pairs batched through the ring,
 and the plain read/write loop.
 */
module IoUringCopy {
  import opened Common
  import opened IoUringRing

  const CHUNK := 131_072
  const PAIRS := 8

  datatype CopyError = NoBufferSpace | IoError | Sys(errno: nat)

  /** What both engines promise when they succeed on a file that fstat measured right. */
  ghost predicate FaithfulCopy(src: bytes, dst: bytes, count: nat) { count == |src| && dst == src }

  // ----- one batch -----

  /** The chunks of one batch: lens[p] bytes at start + p * CHUNK; only the last may be short. */
  datatype Batch = Batch(start: nat, lens: seq<nat>)

  predicate BatchOk(b: Batch) {
    && |b.lens| <= PAIRS
    && (forall p :: 0 <= p < |b.lens| ==> 1 <= b.lens[p] <= CHUNK)
    && (forall p :: 0 <= p < |b.lens| - 1 ==> b.lens[p] == CHUNK)
  }

  function Off(b: Batch, p: nat): nat { b.start + p * CHUNK }

  function End(b: Batch): nat {
    if b.lens == [] then b.start else Off(b, |b.lens| - 1) + b.lens[|b.lens| - 1]
  }

  function ReadSqe(p: nat, len: nat, off: nat): Sqe { Sqe(Read, p, len, off, true, 2 * p) }
  function WriteSqe(p: nat, len: nat, off: nat): Sqe { Sqe(Write, p, len, off, false, 2 * p + 1) }

  function PairSqe(b: Batch, i: nat): Sqe
    requires i < 2 * |b.lens|
  {
    var p := i / 2;
    if i % 2 == 0 then ReadSqe(p, b.lens[p], Off(b, p)) else WriteSqe(p, b.lens[p], Off(b, p))
  }

  function BatchSqes(b: Batch): (q: seq<Sqe>)
    ensures |q| == 2 * |b.lens|
  {
    seq(2 * |b.lens|, i requires 0 <= i < 2 * |b.lens| => PairSqe(b, i))
  }

  predicate BuffersReady(k: Kernel) {
    |k.bufs| == PAIRS && forall p :: 0 <= p < PAIRS ==> |k.bufs[p]| == CHUNK
  }

  // ----- what the kernel keeps while it works on a batch -----

  function Chunk(k: Kernel, b: Batch, p: nat): bytes
    requires p < |b.lens| && Off(b, p) + b.lens[p] <= |k.src|
  {
    k.src[Off(b, p)..Off(b, p) + b.lens[p]]
  }

  /** A finished READ has its chunk in the pair's buffer. */
  ghost predicate ReadInv(k: Kernel, b: Batch, p: nat)
    requires p < |b.lens| <= PAIRS && |k.jobs| == 2 * |b.lens| && BuffersReady(k) && BatchOk(b)
  {
    k.jobs[2 * p].done && k.jobs[2 * p].ok ==>
      Off(b, p) + b.lens[p] <= |k.src| && k.bufs[p][..b.lens[p]] == Chunk(k, b, p)
  }

  /** A finished WRITE has its chunk at its place in the destination. */
  ghost predicate WriteInv(k: Kernel, b: Batch, p: nat)
    requires p < |b.lens| <= PAIRS && |k.jobs| == 2 * |b.lens|
  {
    k.jobs[2 * p + 1].done && k.jobs[2 * p + 1].ok ==>
      && k.jobs[2 * p].done && k.jobs[2 * p].ok
      && Off(b, p) + b.lens[p] <= |k.src| && Off(b, p) + b.lens[p] <= |k.dst|
      && k.dst[Off(b, p)..Off(b, p) + b.lens[p]] == Chunk(k, b, p)
  }

  ghost predicate DstInv(k: Kernel, b: Batch) {
    b.start <= |k.src| && b.start <= |k.dst| <= End(b) && k.dst[..b.start] == k.src[..b.start]
  }

  /** A completion that the batch's callback accepts. */
  predicate Full(c: Cqe, b: Batch) { c.userData / 2 < |b.lens| && c.res == b.lens[c.userData / 2] }

  /** The completions since log0 tell exactly whether some request of the batch fell short. */
  ghost predicate LogInv(k: Kernel, b: Batch, log0: nat, shorts0: nat) {
    && log0 <= |k.log|
    && (forall i :: log0 <= i < |k.log| ==> k.log[i].userData / 2 < |b.lens|)
    && shorts0 <= k.shorts
    && (k.shorts == shorts0 <==> forall j :: 0 <= j < |k.jobs| && k.jobs[j].done ==> k.jobs[j].ok)
    && (k.shorts == shorts0 <==> forall i :: log0 <= i < |k.log| ==> Full(k.log[i], b))
  }

  ghost predicate BatchInv(k: Kernel, b: Batch, log0: nat, shorts0: nat) {
    && BatchOk(b) && BuffersReady(k) && |k.jobs| == 2 * |b.lens|
    && (forall j :: 0 <= j < |k.jobs| ==> k.jobs[j].sqe == PairSqe(b, j))
    && (forall p :: 0 <= p < |b.lens| ==> ReadInv(k, b, p))
    && (forall p :: 0 <= p < |b.lens| ==> WriteInv(k, b, p))
    && DstInv(k, b)
    && LogInv(k, b, log0, shorts0)
  }

  /** Chunks of different pairs do not overlap. */
  lemma ChunksApart(b: Batch, p: nat, q: nat)
    requires BatchOk(b) && p < q < |b.lens|
    ensures Off(b, p) + b.lens[p] <= Off(b, q)
    ensures Off(b, q) + b.lens[q] <= End(b)
  {
    assert p * CHUNK + CHUNK <= q * CHUNK;
    assert q < |b.lens| - 1 ==> q * CHUNK + CHUNK <= (|b.lens| - 1) * CHUNK;
  }

  lemma ChunkInside(b: Batch, p: nat)
    requires BatchOk(b) && p < |b.lens|
    ensures b.start <= Off(b, p) && Off(b, p) + b.lens[p] <= End(b)
  {
    if p < |b.lens| - 1 { ChunksApart(b, p, |b.lens| - 1); }
  }

  lemma WriteAtFacts(dst: bytes, off: nat, data: bytes)
    ensures var d := WriteAt(dst, off, data);
      && |d| == (if |dst| < off + |data| then off + |data| else |dst|)
      && d[off..off + |data|] == data
      && (forall i :: 0 <= i < |dst| && !(off <= i < off + |data|) ==> d[i] == dst[i])
  {
  }

  /** What the completion of a READ changes: its own job and, in its own buffer, its own chunk. */
  lemma ReadStep(k: Kernel, b: Batch, p: nat, ch: Choice)
    requires BatchOk(b) && p < |b.lens| && BuffersReady(k) && BuffersFit(k) && CanRun(k, ch.job) && ch.job == 2 * p
    requires k.jobs[2 * p].sqe == PairSqe(b, 2 * p)
    ensures var k' := RunJob(k, ch);
      && k'.dst == k.dst && k'.src == k.src && BuffersReady(k')
      && k'.jobs == k.jobs[2 * p := k'.jobs[2 * p]] && k'.jobs[2 * p].sqe == k.jobs[2 * p].sqe
      && (forall q :: 0 <= q < PAIRS && q != p ==> k'.bufs[q] == k.bufs[q])
      && (k'.jobs[2 * p].ok ==> Off(b, p) + b.lens[p] <= |k.src| && k'.bufs[p][..b.lens[p]] == Chunk(k, b, p))
  {
    assert (2 * p) / 2 == p;
  }

  /** What the completion of a WRITE changes: its own job and, inside its own chunk, the destination. */
  lemma WriteStep(k: Kernel, b: Batch, p: nat, ch: Choice)
    requires BatchOk(b) && p < |b.lens| && BuffersReady(k) && BuffersFit(k) && CanRun(k, ch.job) && ch.job == 2 * p + 1
    requires |k.jobs| == 2 * |b.lens| && k.jobs[2 * p + 1].sqe == PairSqe(b, 2 * p + 1) && k.jobs[2 * p].sqe == PairSqe(b, 2 * p)
    requires ReadInv(k, b, p) && |k.dst| <= End(b)
    ensures var k', lo, hi := RunJob(k, ch), Off(b, p), Off(b, p) + b.lens[p];
      && k'.bufs == k.bufs && k'.src == k.src
      && k'.jobs == k.jobs[2 * p + 1 := k'.jobs[2 * p + 1]] && k'.jobs[2 * p + 1].sqe == k.jobs[2 * p + 1].sqe
      && |k.dst| <= |k'.dst| <= End(b)
      && (forall i :: 0 <= i < |k.dst| && !(lo <= i < hi) ==> k'.dst[i] == k.dst[i])
      && (k'.jobs[2 * p + 1].ok ==>
           k.jobs[2 * p].done && k.jobs[2 * p].ok && hi <= |k.src| && hi <= |k'.dst| && k'.dst[lo..hi] == Chunk(k, b, p))
  {
    assert (2 * p + 1) / 2 == p && (2 * p) / 2 == p;
    ChunkInside(b, p);
    var res, data := ResultOf(k, ch), k.bufs[p];
    if res > 0 {
      WriteAtFacts(k.dst, Off(b, p), data[..res]);
    }
    hide WriteAt;
  }

  lemma ReadKeepsData(k: Kernel, b: Batch, log0: nat, shorts0: nat, ch: Choice)
    requires BatchInv(k, b, log0, shorts0) && BuffersFit(k) && CanRun(k, ch.job) && ch.job % 2 == 0
    ensures var k' := RunJob(k, ch);
      BuffersReady(k') && DstInv(k', b) && forall p :: 0 <= p < |b.lens| ==> ReadInv(k', b, p) && WriteInv(k', b, p)
  {
    hide LogInv, RunJob;
    var k' := RunJob(k, ch);
    ReadStep(k, b, ch.job / 2, ch);
    forall p | 0 <= p < |b.lens| ensures ReadInv(k', b, p) && WriteInv(k', b, p) {
      assert ReadInv(k, b, p) && WriteInv(k, b, p);
    }
  }

  lemma WriteKeepsOther(k: Kernel, k': Kernel, b: Batch, p0: nat, p: nat)
    requires BatchOk(b) && p0 < |b.lens| && p < |b.lens| && p != p0 && |k.jobs| == |k'.jobs| == 2 * |b.lens|
    requires k'.src == k.src && |k.dst| <= |k'.dst|
    requires forall i :: 0 <= i < |k.dst| && !(Off(b, p0) <= i < Off(b, p0) + b.lens[p0]) ==> k'.dst[i] == k.dst[i]
    requires k'.jobs[2 * p] == k.jobs[2 * p] && k'.jobs[2 * p + 1] == k.jobs[2 * p + 1]
    requires WriteInv(k, b, p)
    ensures WriteInv(k', b, p)
  {
    if p < p0 { ChunksApart(b, p, p0); } else { ChunksApart(b, p0, p); }
    if k.jobs[2 * p + 1].done && k.jobs[2 * p + 1].ok {
      assert k'.dst[Off(b, p)..Off(b, p) + b.lens[p]] == k.dst[Off(b, p)..Off(b, p) + b.lens[p]];
    }
  }

  lemma WriteKeepsRead(k: Kernel, k': Kernel, b: Batch, p: nat)
    requires BatchOk(b) && p < |b.lens| && |k.jobs| == |k'.jobs| == 2 * |b.lens| && BuffersReady(k) && ReadInv(k, b, p)
    requires k'.bufs == k.bufs && k'.src == k.src && k'.jobs[2 * p] == k.jobs[2 * p]
    ensures BuffersReady(k') && ReadInv(k', b, p)
  {
  }

  lemma WriteKeepsData(k: Kernel, b: Batch, log0: nat, shorts0: nat, ch: Choice)
    requires BatchInv(k, b, log0, shorts0) && BuffersFit(k) && CanRun(k, ch.job) && ch.job % 2 == 1
    ensures var k' := RunJob(k, ch);
      BuffersReady(k') && DstInv(k', b) && forall p :: 0 <= p < |b.lens| ==> ReadInv(k', b, p) && WriteInv(k', b, p)
  {
    hide LogInv, RunJob;
    var k', p0 := RunJob(k, ch), ch.job / 2;
    assert ReadInv(k, b, p0);
    WriteStep(k, b, p0, ch);
    ChunkInside(b, p0);
    assert k'.dst[..b.start] == k.dst[..b.start];
    hide CanRun, BuffersFit, PairSqe, ReadInv, WriteInv, Chunk;
    assert k'.jobs == k.jobs[2 * p0 + 1 := k'.jobs[2 * p0 + 1]];
    forall p | 0 <= p < |b.lens| ensures ReadInv(k', b, p) && WriteInv(k', b, p) {
      assert ReadInv(k, b, p) && WriteInv(k, b, p);
      WriteKeepsRead(k, k', b, p);
      if p != p0 { WriteKeepsOther(k, k', b, p0, p); }
    }
  }

  /** What one completion adds to the log and to the jobs. */
  lemma RunJobAdds(k: Kernel, ch: Choice)
    requires BuffersFit(k) && CanRun(k, ch.job)
    ensures var k', j := RunJob(k, ch), ch.job;
      && |k'.jobs| == |k.jobs| && (forall i :: 0 <= i < |k.jobs| ==> k'.jobs[i].sqe == k.jobs[i].sqe)
      && (forall i :: 0 <= i < |k.jobs| && i != j ==> k'.jobs[i] == k.jobs[i])
      && k'.jobs[j].done && (k'.jobs[j].ok <==> ResultOf(k, ch) == k.jobs[j].sqe.len)
      && k'.log == k.log + [Cqe(k.jobs[j].sqe.userData, ResultOf(k, ch))]
      && k'.shorts == k.shorts + if k'.jobs[j].ok then 0 else 1
  {
  }

  /** One more finished job and one more completion, which says whether it was in full. */
  lemma LogGrows(k: Kernel, k': Kernel, b: Batch, log0: nat, shorts0: nat, j: nat, c: Cqe)
    requires LogInv(k, b, log0, shorts0) && j < |k.jobs| == |k'.jobs| && !k.jobs[j].done && k'.jobs[j].done
    requires forall i :: 0 <= i < |k.jobs| && i != j ==> k'.jobs[i] == k.jobs[i]
    requires k'.log == k.log + [c] && c.userData / 2 < |b.lens| && (Full(c, b) <==> k'.jobs[j].ok)
    requires k'.shorts == k.shorts + if k'.jobs[j].ok then 0 else 1
    ensures LogInv(k', b, log0, shorts0)
  {
    hide Full;
    assert k'.log[|k.log|] == c && forall i :: log0 <= i < |k.log| ==> k'.log[i] == k.log[i];
  }

  lemma RunKeepsLog(k: Kernel, b: Batch, log0: nat, shorts0: nat, ch: Choice)
    requires BatchInv(k, b, log0, shorts0) && BuffersFit(k) && CanRun(k, ch.job)
    ensures LogInv(RunJob(k, ch), b, log0, shorts0)
  {
    var k', j := RunJob(k, ch), ch.job;
    RunJobAdds(k, ch);
    assert k.jobs[j].sqe == PairSqe(b, j);
    hide RunJob, ReadInv, WriteInv, DstInv, BuffersReady, LogInv;
    LogGrows(k, k', b, log0, shorts0, j, k'.log[|k.log|]);
  }

  lemma RunKeepsBatch(k: Kernel, b: Batch, log0: nat, shorts0: nat, ch: Choice)
    requires BatchInv(k, b, log0, shorts0) && BuffersFit(k)
    ensures BatchInv(RunJob(k, ch), b, log0, shorts0)
  {
    if CanRun(k, ch.job) {
      hide RunJob, ReadInv, WriteInv, DstInv, LogInv, CanRun, PairSqe;
      if ch.job % 2 == 0 { ReadKeepsData(k, b, log0, shorts0, ch); } else { WriteKeepsData(k, b, log0, shorts0, ch); }
      RunKeepsLog(k, b, log0, shorts0, ch);
      RunJobAdds(k, ch);
    }
  }

  lemma {:induction false} RunsKeepBatch(k: Kernel, b: Batch, log0: nat, shorts0: nat, choices: seq<Choice>)
    requires BatchInv(k, b, log0, shorts0) && BuffersFit(k)
    ensures BatchInv(RunJobs(k, choices), b, log0, shorts0)
    decreases |choices|
  {
    hide RunJob, BatchInv;
    if choices != [] {
      RunKeepsBatch(k, b, log0, shorts0, choices[0]);
      RunsKeepBatch(RunJob(k, choices[0]), b, log0, shorts0, choices[1..]);
    }
  }

  lemma ReachesKeepsBatch(k: Kernel, b: Batch, log0: nat, shorts0: nat, k': Kernel)
    requires BatchInv(k, b, log0, shorts0) && Reaches(k, k')
    ensures BatchInv(k', b, log0, shorts0)
  {
    hide RunJobs, BatchInv;
    var choices :| k' == RunJobs(k, choices);
    RunsKeepBatch(k, b, log0, shorts0, choices);
  }

  /** A submitted batch begins with nothing done. */
  lemma BatchBegins(k: Kernel, b: Batch)
    requires BatchOk(b) && b.lens != [] && BuffersReady(k) && b.start <= |k.src| && k.dst == k.src[..b.start]
    requires forall j :: 0 <= j < |k.jobs| ==> k.jobs[j].done
    ensures BatchInv(Submit(k, BatchSqes(b)), b, |k.log|, k.shorts)
  {
    var s := Submit(k, BatchSqes(b));
    ChunkInside(b, 0);
    assert BatchSqes(b) != [];
    assert forall j :: 0 <= j < |s.jobs| ==> s.jobs[j] == Job(PairSqe(b, j), false, false);
  }

  /** When every request of a batch completed in full, the destination has grown by exactly the batch. */
  lemma BatchCopied(k: Kernel, b: Batch, log0: nat, shorts0: nat)
    requires BatchInv(k, b, log0, shorts0) && Undone(k) == 0 && k.shorts == shorts0
    ensures End(b) <= |k.src| && k.dst == k.src[..End(b)]
  {
    UndoneBounds(k);
    hide Undone;
    forall p | 0 <= p < |b.lens|
      ensures Off(b, p) + b.lens[p] <= |k.src| && Off(b, p) + b.lens[p] <= |k.dst|
      ensures k.dst[Off(b, p)..Off(b, p) + b.lens[p]] == k.src[Off(b, p)..Off(b, p) + b.lens[p]]
    {
      assert WriteInv(k, b, p);
    }
    hide BatchInv, LogInv, ReadInv, WriteInv;
    ChunksCover(k, b);
  }

  /** Chunks that are all in place make up the whole stretch of the batch. */
  lemma ChunksCover(k: Kernel, b: Batch)
    requires BatchOk(b) && DstInv(k, b)
    requires forall p :: 0 <= p < |b.lens| ==> Off(b, p) + b.lens[p] <= |k.src| && Off(b, p) + b.lens[p] <= |k.dst|
    requires forall p :: 0 <= p < |b.lens| ==> k.dst[Off(b, p)..Off(b, p) + b.lens[p]] == k.src[Off(b, p)..Off(b, p) + b.lens[p]]
    ensures End(b) <= |k.src| && k.dst == k.src[..End(b)]
  {
    if |b.lens| > 0 { assert End(b) == Off(b, |b.lens| - 1) + b.lens[|b.lens| - 1]; }
    forall i | 0 <= i < End(b) ensures k.dst[i] == k.src[i] {
      if i < b.start {
        assert k.dst[i] == k.dst[..b.start][i] == k.src[..b.start][i];
      } else {
        var p := ChunkOf(b, i);
        assert k.dst[i] == k.dst[Off(b, p)..Off(b, p) + b.lens[p]][i - Off(b, p)];
        assert k.src[i] == k.src[Off(b, p)..Off(b, p) + b.lens[p]][i - Off(b, p)];
      }
    }
  }

  lemma ChunkOf(b: Batch, i: nat) returns (p: nat)
    requires BatchOk(b) && b.start <= i < End(b)
    ensures p < |b.lens| && Off(b, p) <= i < Off(b, p) + b.lens[p]
  {
    p := (i - b.start) / CHUNK;
    assert i - b.start == p * CHUNK + (i - b.start) % CHUNK;
  }

  /** A kernel with nothing undone does not move. */
  lemma {:induction false} IdleStays(k: Kernel, choices: seq<Choice>)
    requires BuffersFit(k) && forall j :: 0 <= j < |k.jobs| ==> k.jobs[j].done
    ensures RunJobs(k, choices) == k
    decreases |choices|
  {
    if choices != [] { IdleStays(k, choices[1..]); }
  }

  // ----- building a batch -----

  lemma FullBatchEnd(b: Batch)
    requires forall p :: 0 <= p < |b.lens| ==> b.lens[p] == CHUNK
    ensures End(b) == Off(b, |b.lens|)
  {
  }

  lemma BatchGrows(b: Batch, len: nat)
    ensures BatchSqes(Batch(b.start, b.lens + [len])) ==
            BatchSqes(b) + [ReadSqe(|b.lens|, len, Off(b, |b.lens|)), WriteSqe(|b.lens|, len, Off(b, |b.lens|))]
  {
    var c := Batch(b.start, b.lens + [len]);
    assert forall i :: 0 <= i < 2 * |b.lens| ==> PairSqe(c, i) == PairSqe(b, i);
    assert (2 * |b.lens|) / 2 == |b.lens| && (2 * |b.lens| + 1) / 2 == |b.lens|;
  }

  lemma BatchQueueFits(k: Kernel, b: Batch)
    requires BatchOk(b) && BuffersReady(k)
    ensures QueueFits(k, BatchSqes(b))
  {
  }

  /** From an idle kernel, the batch that was submitted is the one being worked on. */
  lemma SubmittedBatch(k: Kernel, b: Batch, k': Kernel)
    requires BatchOk(b) && b.lens != [] && BuffersReady(k) && b.start <= |k.src| && k.dst == k.src[..b.start]
    requires Undone(k) == 0 && BuffersFit(k) && Submitted(k, BatchSqes(b), k')
    ensures BatchInv(k', b, |k.log|, k.shorts) && k'.src == k.src
  {
    hide RunJobs, BatchInv;
    UndoneBounds(k);
    var mid :| Reaches(k, mid) && QueueFits(mid, BatchSqes(b)) && Reaches(Submit(mid, BatchSqes(b)), k');
    var choices :| mid == RunJobs(k, choices);
    IdleStays(k, choices);
    BatchBegins(k, b);
    var more :| k' == RunJobs(Submit(mid, BatchSqes(b)), more);
    ReachesKeepsBatch(Submit(k, BatchSqes(b)), b, |k.log|, k.shorts, k');
    ReachesCounts(Submit(k, BatchSqes(b)), more);
  }

  lemma TakeMore(src: bytes, at: nat, n: nat, from: nat, w: nat)
    requires from + w <= n && at + n <= |src|
    ensures src[..at + from] + src[at..at + n][from..from + w] == src[..at + (from + w)]
  {
    var l, r := src[..at + from] + src[at..at + n][from..from + w], src[..at + (from + w)];
    assert |l| == |r|;
    forall i | 0 <= i < |l| ensures l[i] == r[i] {
      if i >= at + from { assert l[i] == src[at..at + n][i - at]; }
    }
  }

  /** The callback of the batch, over the completions it is given. */
  method AnyShort(got: seq<Cqe>, lens: seq<nat>) returns (shortIo: bool)
    requires forall i :: 0 <= i < |got| ==> got[i].userData / 2 < |lens|
    ensures shortIo <==> exists i :: 0 <= i < |got| && got[i].res != lens[got[i].userData / 2]
  {
    shortIo := false;
    for n := 0 to |got|
      invariant shortIo <==> exists i :: 0 <= i < n && got[i].res != lens[got[i].userData / 2]
    {
      var slot := got[n].userData / 2;
      if got[n].res < 0 || got[n].res != lens[slot] {
        shortIo := true;
      }
    }
  }

  // ----- the ring engine -----

  /** Nothing claimed, nothing in flight, nothing waiting: both rings are empty. */
  ghost predicate Idle(ring: Ring)
    reads ring, ring.sqArray, ring.cqes
  {
    && ring.KernelOk() && ring.SqCount() == 0 && ring.CqCount() == 0 && Undone(ring.kernel) == 0
    && ring.sqTail == ring.localTail && ring.toSubmit == 0
  }

  /** Claim two SQEs and fill them. */
  method QueuePair(ring: Ring, rd: Sqe, wr: Sqe) returns (ok: bool)
    requires ring.KernelOk() && ring.sqes.Length <= ring.cqes.Length && ring.CqCount() == 0 && Undone(ring.kernel) == 0
    requires ring.toSubmit == ring.SqCount()
    modifies ring`localTail, ring`toSubmit, ring.sqes, ring.sqArray
    ensures ring.KernelOk()
    ensures !ok ==> ring.sqes.Length < old(ring.SqCount()) + 2
    ensures ok ==> ring.Queue() == old(ring.Queue()) + [rd, wr] && ring.toSubmit == ring.SqCount()
  {
    hide WindowOf, Indexed, Add32, Sub32, Undone;
    var n := ring.SqCount();
    var first := ring.TryGetSqe();
    if first.None? {
      return false;
    }
    var second := ring.TryGetSqe();
    if second.None? {
      return false;
    }
    ring.Fill(n, first.value, rd);
    ring.Fill(n + 1, second.value, wr);
    return true;
  }

  /** Claim and fill SQE pairs for the next chunks: eight whole ones, or all that is left of the file. Not ok when the
      ring has no slot left. */
  method QueueBatch(ring: Ring, start: nat, size: nat) returns (ok: bool, lens: seq<nat>, off: nat)
    requires Idle(ring) && ring.sqes.Length <= ring.cqes.Length && start < size
    modifies ring`localTail, ring`toSubmit, ring.sqes, ring.sqArray
    ensures ring.KernelOk()
    ensures !ok ==> ring.sqes.Length < 2 * PAIRS
    ensures ok ==> lens != [] && BatchOk(Batch(start, lens)) && off == End(Batch(start, lens)) <= size
    ensures ok ==> ring.Queue() == BatchSqes(Batch(start, lens)) && ring.toSubmit == ring.SqCount()
    ensures ok ==> off == size || (|lens| == PAIRS && forall p :: 0 <= p < PAIRS ==> lens[p] == CHUNK)
  {
    hide WindowOf, Indexed, Add32, Sub32, Undone;
    lens := [];
    off := start;
    assert ring.Queue() == BatchSqes(Batch(start, []));
    while |lens| < PAIRS && off < size
      invariant BatchOk(Batch(start, lens)) && off == End(Batch(start, lens)) <= size
      invariant off < size ==> forall p :: 0 <= p < |lens| ==> lens[p] == CHUNK
      invariant ring.KernelOk() && ring.Queue() == BatchSqes(Batch(start, lens)) && ring.toSubmit == ring.SqCount()
      invariant ring.CqCount() == 0 && Undone(ring.kernel) == 0 && (off == start ==> lens == [])
      decreases size - off
    {
      var len := if CHUNK <= size - off then CHUNK else size - off;
      ghost var b := Batch(start, lens);
      FullBatchEnd(b);
      BatchGrows(b, len);
      assert ring.SqCount() == |ring.Queue()|;
      ok := QueuePair(ring, ReadSqe(|lens|, len, off), WriteSqe(|lens|, len, off));
      if !ok {
        return false, lens, off;
      }
      lens := lens + [len];
      off := off + len;
    }
    return true, lens, off;
  }

  /** Submit a queued batch, wait for it, and look at every completion. */
  method RunBatch(ring: Ring, ghost b: Batch, lens: seq<nat>) returns (r: Result<(), CopyError>)
    requires ring.KernelOk() && BatchOk(b) && lens == b.lens != [] && ring.Queue() == BatchSqes(b)
    requires ring.CqCount() == 0 && Undone(ring.kernel) == 0
    requires BuffersReady(ring.kernel) && b.start <= |ring.kernel.src| && ring.kernel.dst == ring.kernel.src[..b.start]
    modifies ring, ring.cqes
    ensures ring.KernelOk() && ring.kernel.src == old(ring.kernel.src)
    ensures r.Ok? ==> Idle(ring) && BuffersReady(ring.kernel) && ring.kernel.shorts == old(ring.kernel.shorts)
    ensures r.Ok? ==> End(b) <= |ring.kernel.src| && ring.kernel.dst == ring.kernel.src[..End(b)]
    ensures r == Err(IoError) ==> Idle(ring) && ring.kernel.shorts > old(ring.kernel.shorts)
    ensures r != Err(NoBufferSpace)
    ensures ring.failures == old(ring.failures) + if r.Err? && r.error.Sys? then [r.error.errno] else []
  {
    hide WindowOf, Indexed, Add32, Sub32, Undone, Submitted, Reaches, BatchSqes, RunJobs;
    ghost var k0 := ring.kernel;
    BatchQueueFits(k0, b);
    var s := ring.SubmitAndWait(2 * |lens|);
    SyscallCounts(k0, BatchSqes(b), ring.kernel, ring.Queue());
    if s.Err? {
      return Err(Sys(s.error));
    }
    ghost var k1 := ring.kernel;
    SubmittedBatch(k0, b, k1);
    var d, got := ring.Drain(2 * |lens|);
    ReachesKeepsBatch(k1, b, |k0.log|, k0.shorts, ring.kernel);
    ReachesSrc(k1, ring.kernel);
    if d.Err? {
      return Err(Sys(d.error));
    }
    assert got == ring.kernel.log[|k0.log|..];
    assert LogInv(ring.kernel, b, |k0.log|, k0.shorts);
    var shortIo := AnyShort(got, lens);
    LogTells(ring.kernel, b, |k0.log|, k0.shorts, got);
    if shortIo {
      return Err(IoError);
    }
    BatchCopied(ring.kernel, b, |k0.log|, k0.shorts);
    return Ok(());
  }

  lemma ReachesSrc(k: Kernel, k': Kernel)
    requires Reaches(k, k')
    ensures k'.src == k.src
  {
    hide RunJobs;
    var choices :| k' == RunJobs(k, choices);
    ReachesCounts(k, choices);
  }

  lemma LogTells(k: Kernel, b: Batch, log0: nat, shorts0: nat, got: seq<Cqe>)
    requires LogInv(k, b, log0, shorts0) && got == k.log[log0..]
    ensures forall i :: 0 <= i < |got| ==> got[i].userData / 2 < |b.lens|
    ensures shorts0 <= k.shorts
    ensures (exists i :: 0 <= i < |got| && got[i].res != b.lens[got[i].userData / 2]) <==> k.shorts > shorts0
  {
    assert forall i :: log0 <= i < |k.log| ==> got[i - log0] == k.log[i];
    assert forall i :: 0 <= i < |got| ==> got[i] == k.log[log0 + i];
  }

  /** copy_file_uring on open files, after fstat said size. Ok means the destination is the source's first
      size bytes, and every request completed in full; IoError means one did not, a system error that
      io_uring_enter failed, and there is no other error on a ring of sixteen entries or more. */
  method CopyFileUring(ring: Ring, size: nat) returns (r: Result<nat, CopyError>)
    requires Idle(ring) && ring.sqes.Length <= ring.cqes.Length && BuffersReady(ring.kernel) && ring.kernel.dst == []
    modifies ring, ring.sqes, ring.sqArray, ring.cqes
    ensures ring.kernel.src == old(ring.kernel.src)
    ensures r.Ok? ==> r.value == size <= |ring.kernel.src| && ring.kernel.dst == ring.kernel.src[..size]
    ensures r.Ok? ==> ring.kernel.shorts == old(ring.kernel.shorts)
    ensures r.Ok? && size == |ring.kernel.src| ==> FaithfulCopy(ring.kernel.src, ring.kernel.dst, r.value)
    ensures r == Err(IoError) ==> ring.kernel.shorts > old(ring.kernel.shorts)
    ensures r == Err(NoBufferSpace) ==> ring.sqes.Length < 2 * PAIRS
    ensures ring.failures == old(ring.failures) + if r.Err? && r.error.Sys? then [r.error.errno] else []
    ensures r.Ok? || r == Err(IoError) ==> Idle(ring)
  {
    hide Undone, WindowOf, Indexed, BatchSqes;
    var off := 0;
    while off < size
      invariant Idle(ring) && off <= size && ring.kernel.src == old(ring.kernel.src)
      invariant BuffersReady(ring.kernel) && ring.kernel.shorts == old(ring.kernel.shorts)
      invariant ring.failures == old(ring.failures)
      invariant off <= |ring.kernel.src| && ring.kernel.dst == ring.kernel.src[..off]
      decreases size - off
    {
      var ok, lens, next := QueueBatch(ring, off, size);
      if !ok {
        return Err(NoBufferSpace);
      }
      ghost var b := Batch(off, lens);
      ChunkInside(b, 0);
      var done := RunBatch(ring, b, lens);
      if done.Err? {
        return Err(done.error);
      }
      off := next;
    }
    return Ok(size);
  }

  /** copy_file_uring of one file on the ring that cmd_sync creates: 64 submission entries, counters anywhere. Such
      a ring never runs out of slots, so an error is a short request or a failed system call. */
  method CopyOnNewRing(src: bytes, size: nat, completions: nat, sqStart: u32, cqStart: u32, patience: nat)
    returns (r: Result<nat, CopyError>, dst: bytes)
    requires RingSize(completions) && completions >= 64  // as ring setup gives: at least as many as entries
    ensures r.Ok? ==> r.value == size <= |src| && dst == src[..size]
    ensures r != Err(NoBufferSpace)
  {
    var kernel := Kernel(src, [], seq(PAIRS, _ => Zeros(CHUNK)), [], [], 0);
    assert RingSize(64);
    UndoneBounds(kernel);
    hide Undone, WindowOf, Indexed;
    var ring := new Ring(64, completions, sqStart, cqStart, kernel, patience);
    r := CopyFileUring(ring, size);
    dst := ring.kernel.dst;
  }

  // ----- the plain engine -----

  datatype CallError = Signalled | Refused(errno: nat)

  /** The two open files of a copy and the system calls on them. */
  class Files {
    const src: bytes
    var at: nat                    // where the next read begins
    var dst: bytes
    var patience: nat              // how many more calls a signal interrupts
    ghost var failures: seq<nat>   // what calls failed with, other than by a signal

    constructor (src: bytes, patience: nat)
      ensures this.src == src && at == 0 && dst == [] && failures == []
    {
      this.src, at, dst, this.patience, failures := src, 0, [], patience, [];
    }

    /** read(2): up to room bytes, none only at the end of the file. */
    method Read(room: nat) returns (r: Result<bytes, CallError>)
      requires at <= |src| && room > 0
      modifies this`at, this`patience, this`failures
      ensures r.Ok? ==> at == old(at) + |r.value| <= |src| && r.value == src[old(at)..at]
      ensures r.Ok? ==> |r.value| <= room && (r.value == [] ==> at == |src|) && patience == old(patience)
      ensures r.Err? ==> at == old(at) && (r.error.Signalled? ==> patience < old(patience))
      ensures failures == old(failures) + if r.Err? && r.error.Refused? then [r.error.errno] else []
      ensures patience <= old(patience)
    {
      var n: nat, fails: bool, signal: bool, errno: nat := *, *, *, *;
      if fails {
        failures := failures + [errno];
        return Err(Refused(errno));
      }
      if signal && patience > 0 {
        patience := patience - 1;
        return Err(Signalled);
      }
      var most := if room <= |src| - at then room else |src| - at;
      n := if 1 <= n <= most then n else most;
      r := Ok(src[at..at + n]);
      at := at + n;
    }

    /** write(2): a nonempty part of b. */
    method Write(b: bytes) returns (r: Result<nat, CallError>)
      requires b != []
      modifies this`dst, this`patience, this`failures
      ensures r.Ok? ==> 1 <= r.value <= |b| && dst == old(dst) + b[..r.value] && patience == old(patience)
      ensures r.Err? ==> dst == old(dst) && (r.error.Signalled? ==> patience < old(patience))
      ensures failures == old(failures) + if r.Err? && r.error.Refused? then [r.error.errno] else []
      ensures patience <= old(patience)
    {
      var n: nat, fails: bool, signal: bool, errno: nat := *, *, *, *;
      if fails {
        failures := failures + [errno];
        return Err(Refused(errno));
      }
      if signal && patience > 0 {
        patience := patience - 1;
        return Err(Signalled);
      }
      n := if 1 <= n <= |b| then n else |b|;
      dst := dst + b[..n];
      r := Ok(n);
    }
  }

  /** copy_file_rw on open files. The copy is faithful, through any short and interrupted calls, unless a call fails
      other than by a signal; then that call's error is the answer and a prefix of the source is left behind. */
  method CopyFileRw(f: Files) returns (r: Result<nat, nat>)
    requires f.at == 0 && f.dst == []
    modifies f
    ensures r.Ok? ==> FaithfulCopy(f.src, f.dst, r.value) && f.failures == old(f.failures)
    ensures r.Err? ==> f.dst <= f.src && f.failures == old(f.failures) + [r.error]
  {
    var total := 0;
    while true
      invariant total == f.at <= |f.src| && f.dst == f.src[..total] && f.failures == old(f.failures)
      decreases |f.src| - total, f.patience
    {
      var got := f.Read(CHUNK);
      if got.Err? {
        if got.error.Signalled? { continue; }
        return Err(got.error.errno);
      }
      var buf := got.value;
      if buf == [] {
        break;
      }
      var written := 0;
      while written < |buf|
        invariant 0 <= written <= |buf| && f.at == total + |buf| <= |f.src| && buf == f.src[total..f.at]
        invariant f.dst == f.src[..total + written] && f.failures == old(f.failures)
        decreases |buf| - written + f.patience
      {
        var w := f.Write(buf[written..]);
        if w.Err? {
          if w.error.Signalled? { continue; }
          return Err(w.error.errno);
        }
        TakeMore(f.src, total, |buf|, written, w.value);
        assert buf[written..][..w.value] == buf[written..written + w.value];
        written := written + w.value;
      }
      total := total + |buf|;
    }
    return Ok(total);
  }
}
