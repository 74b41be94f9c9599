/** The parallel and the streaming container of smart_compression.go: a marker, a little-endian
    chunk count, then chunks with their two sizes, compressed by workers that finish in any order. */
module ChunkedModes {
  import opened Bytes
  import opened Codec
  import opened MixedMode

  const PARALLEL_MARK: Byte := 2
  const STREAM_MARK: Byte := 3
  const DEFAULT_PARALLEL_CHUNK := 262144

  datatype Job = Job(algorithm: Byte, chunk: Bytes)

  // ---- splitting the input ----

  function CeilDiv(len: nat, size: nat): nat
    requires size > 0
  {
    len / size + if len % size != 0 then 1 else 0
  }

  datatype Plan = Plan(size: nat, chunks: nat)

  function ParallelChunk(configured: int): nat {
    if configured <= 0 then DEFAULT_PARALLEL_CHUNK else configured
  }

  /** More chunks than workers are merged into as many chunks as there are workers, of the
      rounded-down size. */
  function ParallelPlan(len: nat, configured: int, maxChunks: nat): Plan
    requires maxChunks > 0
  {
    var size := ParallelChunk(configured);
    var chunks := CeilDiv(len, size);
    if chunks > maxChunks then Plan(len / maxChunks, maxChunks) else Plan(size, chunks)
  }

  /** How many bytes of the input the planned chunks reach. */
  function Reach(plan: Plan, len: nat): (n: nat)
    ensures n <= len
  {
    NonNegative(plan.chunks, plan.size);
    Min(len, plan.chunks * plan.size)
  }

  lemma NonNegative(a: nat, b: nat)
    ensures a * b >= 0
  {
  }

  function Jobs(pick: Chooser, data: Bytes, size: nat, n: nat): (jobs: seq<Job>)
    ensures |jobs| == n
  {
    if n == 0 then []
    else
      var m := Min(size, |data|);
      [Job(pick(data[..m]), data[..m])] + Jobs(pick, data[m..], size, n - 1)
  }

  function Concat(jobs: seq<Job>): Bytes {
    if jobs == [] then [] else jobs[0].chunk + Concat(jobs[1..])
  }

  lemma OneMore(n: nat, size: nat)
    requires n > 0
    ensures n * size == (n - 1) * size + size && (n - 1) * size >= 0
  {
  }

  lemma Pieces(data: Bytes, m: nat, k: nat)
    requires m + k <= |data|
    ensures data[..m] + data[m..][..k] == data[..m + k]
  {
  }

  /** The chunks are consecutive pieces of the input, from its start. */
  lemma {:induction false} JobsCover(pick: Chooser, data: Bytes, size: nat, n: nat)
    ensures Concat(Jobs(pick, data, size, n)) == data[..Reach(Plan(size, n), |data|)]
  {
    if n > 0 {
      OneMore(n, size);
      var m := Min(size, |data|);
      JobsCover(pick, data[m..], size, n - 1);
      Pieces(data, m, Reach(Plan(size, n - 1), |data| - m));
    }
  }

  // ---- frames ----

  /** Original size, compressed size, compressed bytes. */
  function SizedFrame(c: Codec, algorithm: Byte, chunk: Bytes): Bytes {
    var z := Encode(c, algorithm, chunk);
    LE(|chunk|, 4) + LE(|z|, 4) + z
  }

  /** The parallel form names the algorithm per chunk, the stream form once in its header. */
  function JobFrame(c: Codec, shared: bool, job: Job): Bytes {
    (if shared then [] else [job.algorithm]) + SizedFrame(c, job.algorithm, job.chunk)
  }

  function JobFrames(c: Codec, shared: bool, jobs: seq<Job>): Bytes {
    if jobs == [] then [] else JobFrame(c, shared, jobs[0]) + JobFrames(c, shared, jobs[1..])
  }

  function CompressedParallel(c: Codec, pick: Chooser, data: Bytes, configured: int, maxChunks: nat): Bytes
    requires maxChunks > 0
  {
    var plan := ParallelPlan(|data|, configured, maxChunks);
    [PARALLEL_MARK] + LE(plan.chunks, 4) + JobFrames(c, false, Jobs(pick, data, plan.size, plan.chunks))
  }

  /** All chunks of a stream use the algorithm chosen for the whole input. */
  function CompressedStream(c: Codec, pick: Chooser, data: Bytes, size: nat): Bytes
    requires size > 0
  {
    var n := CeilDiv(|data|, size);
    [STREAM_MARK] + LE(n, 4) + [pick(data)] + JobFrames(c, true, Jobs(_ => pick(data), data, size, n))
  }

  // ---- decoding ----

  function ReadSized(c: Codec, algorithm: Byte, b: Bytes): (t: Turn)
    ensures t.Take? ==> t.used <= |b|
    ensures !t.Stop? && (t.Fail? ==> t.outcome == Invalid)
  {
    if |b| < 8 then Fail(Invalid)
    else
      var original, compressed := FromLE(b[..4]), FromLE(b[4..8]);
      if |b| < 8 + compressed then Fail(Invalid)
      else
        match Decompress(c, b[8..8 + compressed], algorithm)
        case None => Fail(Invalid)
        case Some(chunk) => if |chunk| != original then Fail(Invalid) else Take(chunk, 8 + compressed)
  }

  function ReadJob(c: Codec, shared: Option<Byte>, b: Bytes): (t: Turn)
    ensures t.Take? ==> t.used <= |b|
    ensures !t.Stop? && (t.Fail? ==> t.outcome == Invalid)
  {
    match shared
    case Some(algorithm) => ReadSized(c, algorithm, b)
    case None =>
      if b == [] then Fail(Invalid)
      else
        match ReadSized(c, b[0], b[1..])
        case Take(chunk, used) => Take(chunk, used + 1)
        case _ => Fail(Invalid)
  }

  /** Read n chunks; bytes behind the last one are ignored. */
  function DecodeJobs(c: Codec, shared: Option<Byte>, b: Bytes, n: nat, acc: Bytes): Decoded
    decreases n
  {
    if n == 0 then Decoded(acc)
    else
      match ReadJob(c, shared, b)
      case Take(chunk, used) => DecodeJobs(c, shared, b[used..], n - 1, acc + chunk)
      case _ => Invalid
  }

  function DecompressedParallel(c: Codec, b: Bytes): Decoded {
    if b == [] || b[0] != PARALLEL_MARK then Decoded(b)
    else if |b| < 5 then Invalid
    else DecodeJobs(c, None, b[5..], FromLE(b[1..5]), [])
  }

  function DecompressedStream(c: Codec, b: Bytes): Decoded {
    if b == [] || b[0] != STREAM_MARK then Decoded(b)
    else if |b| < 6 then Invalid
    else DecodeJobs(c, Some(b[5]), b[6..], FromLE(b[1..5]), [])
  }

  // ---- round trips ----

  /** Input and compressed chunks are short enough for the 32-bit size fields. */
  ghost predicate Fits32(c: Codec, data: Bytes) {
    |data| < TWO32 && forall a: Byte, d: Bytes :: |d| <= |data| ==> |Encode(c, a, d)| < TWO32
  }

  lemma ReadSizedFrame(c: Codec, a: Byte, chunk: Bytes, tail: Bytes)
    requires Lawful(c) && |chunk| < TWO32 && |Encode(c, a, chunk)| < TWO32
    ensures ReadSized(c, a, SizedFrame(c, a, chunk) + tail) == Take(chunk, |SizedFrame(c, a, chunk)|)
  {
    var z := Encode(c, a, chunk);
    var b := SizedFrame(c, a, chunk) + tail;
    Pow256Widths();
    LERoundTrip(|chunk|, 4);
    LERoundTrip(|z|, 4);
    assert b[..4] == LE(|chunk|, 4);
    assert b[4..8] == LE(|z|, 4);
    assert b[8..8 + |z|] == z;
  }

  predicate SharedBy(shared: Option<Byte>, job: Job) {
    shared.Some? ==> job.algorithm == shared.value
  }

  lemma ReadJobFrame(c: Codec, shared: Option<Byte>, job: Job, tail: Bytes)
    requires Lawful(c) && SharedBy(shared, job)
    requires |job.chunk| < TWO32 && |Encode(c, job.algorithm, job.chunk)| < TWO32
    ensures ReadJob(c, shared, JobFrame(c, shared.Some?, job) + tail)
        == Take(job.chunk, |JobFrame(c, shared.Some?, job)|)
  {
    hide ReadSized, SizedFrame;
    ReadSizedFrame(c, job.algorithm, job.chunk, tail);
    var b := JobFrame(c, shared.Some?, job) + tail;
    if shared.Some? {
      assert b == SizedFrame(c, job.algorithm, job.chunk) + tail;
    } else {
      assert b[1..] == SizedFrame(c, job.algorithm, job.chunk) + tail;
    }
  }

  lemma {:induction false} DecodeJobFrames(c: Codec, shared: Option<Byte>, jobs: seq<Job>, acc: Bytes)
    requires Lawful(c)
    requires forall job :: job in jobs ==>
      SharedBy(shared, job) && |job.chunk| < TWO32 && |Encode(c, job.algorithm, job.chunk)| < TWO32
    ensures DecodeJobs(c, shared, JobFrames(c, shared.Some?, jobs), |jobs|, acc) == Decoded(acc + Concat(jobs))
    decreases |jobs|
  {
    if jobs == [] {
      assert acc + [] == acc;
    } else {
      var job, rest := jobs[0], JobFrames(c, shared.Some?, jobs[1..]);
      var f := JobFrame(c, shared.Some?, job);
      assert job in jobs;
      ReadJobFrame(c, shared, job, rest);
      assert (f + rest)[|f|..] == rest;
      DecodeJobFrames(c, shared, jobs[1..], acc + job.chunk);
      assert acc + (job.chunk + Concat(jobs[1..])) == (acc + job.chunk) + Concat(jobs[1..]);
    }
  }

  lemma {:induction false} JobsSmall(pick: Chooser, data: Bytes, size: nat, n: nat)
    ensures forall job :: job in Jobs(pick, data, size, n) ==> |job.chunk| <= |data| && job.algorithm == pick(job.chunk)
  {
    if n > 0 {
      JobsSmall(pick, data[Min(size, |data|)..], size, n - 1);
    }
  }

  lemma QuotientAtMost(q: nat, size: nat, rest: nat)
    requires size > 0
    ensures q + (if rest != 0 then 1 else 0) <= q * size + rest
  {
    assert q * (size - 1) >= 0;
  }

  lemma CeilAtMost(len: nat, size: nat)
    requires size > 0
    ensures CeilDiv(len, size) <= len
  {
    QuotientAtMost(len / size, size, len % size);
  }

  lemma PlanAtMost(len: nat, configured: int, maxChunks: nat)
    requires maxChunks > 0
    ensures ParallelPlan(len, configured, maxChunks).chunks <= len
  {
    CeilAtMost(len, ParallelChunk(configured));
  }

  /** The parallel decoder returns exactly the part of the input the chunks covered. */
  lemma ParallelDecodes(c: Codec, pick: Chooser, data: Bytes, configured: int, maxChunks: nat)
    requires Lawful(c) && maxChunks > 0 && Fits32(c, data)
    ensures DecompressedParallel(c, CompressedParallel(c, pick, data, configured, maxChunks))
      == Decoded(data[..Reach(ParallelPlan(|data|, configured, maxChunks), |data|)])
  {
    hide ParallelPlan, JobFrame, ReadJob, Reach;
    var plan := ParallelPlan(|data|, configured, maxChunks);
    var jobs := Jobs(pick, data, plan.size, plan.chunks);
    var z := CompressedParallel(c, pick, data, configured, maxChunks);
    PlanAtMost(|data|, configured, maxChunks);
    Pow256Widths();
    LERoundTrip(plan.chunks, 4);
    assert z[1..5] == LE(plan.chunks, 4) && z[5..] == JobFrames(c, false, jobs);
    JobsSmall(pick, data, plan.size, plan.chunks);
    DecodeJobFrames(c, None, jobs, []);
    JobsCover(pick, data, plan.size, plan.chunks);
    assert [] + Concat(jobs) == Concat(jobs);
  }

  lemma CeilCovers(len: nat, size: nat)
    requires size > 0
    ensures CeilDiv(len, size) * size >= len
  {
    assert len == (len / size) * size + len % size;
    assert (len / size + 1) * size == (len / size) * size + size;
  }

  /** The plan covers the input exactly when no merging is needed or the merge is even. */
  lemma PlanCoversIff(len: nat, configured: int, maxChunks: nat)
    requires maxChunks > 0
    ensures Reach(ParallelPlan(len, configured, maxChunks), len) == len
      <==> CeilDiv(len, ParallelChunk(configured)) <= maxChunks || len % maxChunks == 0
  {
    var size := ParallelChunk(configured);
    if CeilDiv(len, size) <= maxChunks {
      CeilCovers(len, size);
    } else {
      assert len == maxChunks * (len / maxChunks) + len % maxChunks;
    }
  }

  /** The parallel form brings the whole input back if and only if it needs at most maxChunks chunks
      or its length is a multiple of maxChunks; otherwise the tail of the input is lost. */
  lemma ParallelRoundTripIff(c: Codec, pick: Chooser, data: Bytes, configured: int, maxChunks: nat)
    requires Lawful(c) && maxChunks > 0 && Fits32(c, data)
    ensures DecompressedParallel(c, CompressedParallel(c, pick, data, configured, maxChunks)) == Decoded(data)
      <==> CeilDiv(|data|, ParallelChunk(configured)) <= maxChunks || |data| % maxChunks == 0
  {
    hide CompressedParallel, DecompressedParallel, ParallelPlan, CeilDiv, Reach;
    ParallelDecodes(c, pick, data, configured, maxChunks);
    PlanCoversIff(|data|, configured, maxChunks);
    assert data[..|data|] == data;
  }

  /** The stream form always brings the whole input back. */
  lemma StreamRoundTrip(c: Codec, pick: Chooser, data: Bytes, size: nat)
    requires Lawful(c) && size > 0 && Fits32(c, data)
    ensures DecompressedStream(c, CompressedStream(c, pick, data, size)) == Decoded(data)
  {
    hide CeilDiv, JobFrame, ReadJob;
    var n := CeilDiv(|data|, size);
    var one: Chooser := _ => pick(data);
    var jobs := Jobs(one, data, size, n);
    var z := CompressedStream(c, pick, data, size);
    CeilAtMost(|data|, size);
    Pow256Widths();
    LERoundTrip(n, 4);
    assert z[1..5] == LE(n, 4) && z[5] == pick(data) && z[6..] == JobFrames(c, true, jobs);
    JobsSmall(one, data, size, n);
    DecodeJobFrames(c, Some(pick(data)), jobs, []);
    JobsCover(one, data, size, n);
    CeilCovers(|data|, size);
    assert data[..|data|] == data && [] + Concat(jobs) == Concat(jobs);
  }
}
