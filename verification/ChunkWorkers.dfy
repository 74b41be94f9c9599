/** The compressing and decompressing loops behind the chunked containers, with a worker pool
    that finishes jobs in any order. */
module ChunkWorkers {
  import opened Bytes
  import opened Codec
  import opened MixedMode
  import opened ChunkedModes

  /** Queue the chunks of the input, in order. */
  method MakeJobs(pick: Chooser, data: Bytes, size: nat, chunks: nat) returns (jobs: seq<Job>)
    requires forall i: nat :: i < chunks ==> i * size <= |data|
    ensures jobs == Jobs(pick, data, size, chunks)
  {
    hide Jobs;
    jobs := [];
    var i := 0;
    ghost var done := 0;
    assert data[0..] == data;
    while i < chunks
      invariant 0 <= i <= chunks && 0 <= done <= |data| && (i < chunks ==> done == i * size)
      invariant jobs + Jobs(pick, data[done..], size, chunks - i) == Jobs(pick, data, size, chunks)
    {
      var start := i * size;
      OneMore(i + 1, size);
      var end := start + size;
      if end > |data| {
        end := |data|;
      }
      JobsNext(pick, data, size, chunks - i, start, end);
      jobs := jobs + [Job(pick(data[start..end]), data[start..end])];
      done := end;
      i := i + 1;
    }
  }

  lemma JobsNext(pick: Chooser, data: Bytes, size: nat, n: nat, start: nat, end: nat)
    requires n > 0 && start <= |data| && end == Min(start + size, |data|)
    ensures Jobs(pick, data[start..], size, n)
         == [Job(pick(data[start..end]), data[start..end])] + Jobs(pick, data[end..], size, n - 1)
  {
    var rest := data[start..];
    assert rest[..end - start] == data[start..end] && rest[end - start..] == data[end..];
  }

  function Upto(n: nat): (ids: set<nat>)
    ensures forall i: nat :: i in ids <==> i < n
  {
    if n == 0 then {} else Upto(n - 1) + {n - 1}
  }

  /** A job's result, once a worker has finished it. */
  predicate Finished(c: Codec, job: Job, result: Option<Bytes>) {
    result == Some(Encode(c, job.algorithm, job.chunk))
  }

  /** Workers and the collector take turns in any order: a worker finishes any job still open, the
      collector appends the next job once it is finished. The bytes are the same for every order. */
  method CollectJobs(c: Codec, shared: bool, jobs: seq<Job>) returns (out: Bytes)
    ensures out == JobFrames(c, shared, jobs)
  {
    hide Finished, JobFrame, JobFrames, Upto;
    NoFrames(c, shared);
    var results := new Option<Bytes>[|jobs|](_ => None);
    var unfinished := Upto(|jobs|);
    var collected := 0;
    out := [];
    assert jobs[0..] == jobs;
    while collected < |jobs|
      invariant 0 <= collected <= |jobs|
      invariant forall i: nat :: i in unfinished ==> i < |jobs|
      invariant forall i: nat :: i < |jobs| ==> i in unfinished || Finished(c, jobs[i], results[i])
      invariant out + JobFrames(c, shared, jobs[collected..]) == JobFrames(c, shared, jobs)
      decreases |unfinished|, |jobs| - collected
    {
      var worker: bool := *;
      if collected in unfinished || (worker && unfinished != {}) {
        var i :| i in unfinished;
        results[i] := Work(c, jobs[i]);
        unfinished := unfinished - {i};
      } else {
        var frame := CollectOne(c, shared, jobs[collected], results[collected]);
        FramesNext(c, shared, jobs, collected);
        Regroup(out, frame, JobFrames(c, shared, jobs[collected + 1..]));
        out := out + frame;
        collected := collected + 1;
      }
    }
    assert jobs[|jobs|..] == [];
  }

  lemma Regroup(a: Bytes, b: Bytes, z: Bytes)
    ensures a + (b + z) == (a + b) + z
  {
  }

  lemma NoFrames(c: Codec, shared: bool)
    ensures JobFrames(c, shared, []) == []
  {
  }

  lemma FramesNext(c: Codec, shared: bool, jobs: seq<Job>, i: nat)
    requires i < |jobs|
    ensures JobFrames(c, shared, jobs[i..]) == JobFrame(c, shared, jobs[i]) + JobFrames(c, shared, jobs[i + 1..])
  {
    assert jobs[i..][1..] == jobs[i + 1..];
  }

  method Work(c: Codec, job: Job) returns (result: Option<Bytes>)
    ensures Finished(c, job, result)
  {
    result := Some(Encode(c, job.algorithm, job.chunk));
  }

  method CollectOne(c: Codec, shared: bool, job: Job, result: Option<Bytes>) returns (frame: Bytes)
    requires Finished(c, job, result)
    ensures frame == JobFrame(c, shared, job)
  {
    var z := result.value;
    frame := LE(|job.chunk|, 4) + LE(|z|, 4) + z;
    if !shared {
      frame := [job.algorithm] + frame;
    }
  }

  lemma StartsInside(len: nat, size: nat, chunks: nat)
    requires size > 0 && chunks <= CeilDiv(len, size)
    ensures forall i: nat :: i < chunks ==> i * size <= len
  {
    forall i: nat | i < chunks ensures i * size <= len {
      ChunkBounds(len, size, CeilDiv(len, size), i);
    }
  }

  lemma MergedStartsInside(len: nat, maxChunks: nat)
    requires maxChunks > 0
    ensures forall i: nat :: i < maxChunks ==> i * (len / maxChunks) <= len
  {
    var q := len / maxChunks;
    assert maxChunks * q <= len;
    forall i: nat | i < maxChunks ensures i * q <= len {
      TimesMonotone(i, maxChunks, q);
    }
  }

  lemma TimesMonotone(a: nat, b: nat, q: nat)
    requires a <= b
    ensures a * q <= b * q
  {
  }

  /** Every planned chunk starts inside the input. */
  lemma PlanInside(len: nat, configured: int, maxChunks: nat)
    requires maxChunks > 0
    ensures var p := ParallelPlan(len, configured, maxChunks); forall i: nat :: i < p.chunks ==> i * p.size <= len
  {
    hide CeilDiv;
    var size := ParallelChunk(configured);
    if CeilDiv(len, size) > maxChunks {
      MergedStartsInside(len, maxChunks);
    } else {
      StartsInside(len, size, CeilDiv(len, size));
    }
  }

  /** Chunk size and count; `maxChunks` chunks of the rounded-down size if there would be more. */
  method PlanParallel(len: nat, configured: int, maxChunks: nat) returns (chunkSize: nat, chunks: nat)
    requires maxChunks > 0
    ensures Plan(chunkSize, chunks) == ParallelPlan(len, configured, maxChunks)
  {
    chunkSize := if configured <= 0 then DEFAULT_PARALLEL_CHUNK else configured;
    chunks := len / chunkSize;
    if len % chunkSize != 0 {
      chunks := chunks + 1;
    }
    if chunks > maxChunks {
      chunkSize := len / maxChunks;
      chunks := maxChunks;
    }
  }

  /** `cpus` workers stand in when the configuration names none. */
  method CompressParallel(c: Codec, pick: Chooser, data: Bytes, configured: int, maxParallelism: int, cpus: nat)
    returns (out: Bytes)
    requires cpus > 0
    ensures out == CompressedParallel(c, pick, data, configured, if maxParallelism <= 0 then cpus else maxParallelism)
  {
    hide ParallelPlan, JobFrames;
    var maxChunks := if maxParallelism <= 0 then cpus else maxParallelism;
    var chunkSize, chunks := PlanParallel(|data|, configured, maxChunks);
    PlanInside(|data|, configured, maxChunks);
    var jobs := MakeJobs(pick, data, chunkSize, chunks);
    var frames := CollectJobs(c, false, jobs);
    out := [PARALLEL_MARK] + LE(chunks, 4) + frames;
  }

  /** The caller streams only inputs longer than one chunk. */
  method CompressStream(c: Codec, pick: Chooser, data: Bytes, chunkSize: nat) returns (out: Bytes)
    requires 0 < chunkSize < |data|
    ensures out == CompressedStream(c, pick, data, chunkSize)
  {
    hide Encode;
    var chunks := |data| / chunkSize;
    if |data| % chunkSize != 0 {
      chunks := chunks + 1;
    }
    StartsInside(|data|, chunkSize, chunks);
    var algorithm := pick(data);
    var jobs := MakeJobs(_ => pick(data), data, chunkSize, chunks);
    var frames := CollectJobs(c, true, jobs);
    out := [STREAM_MARK] + LE(chunks, 4) + [algorithm] + frames;
  }

  method DecompressJobs(c: Codec, shared: Option<Byte>, data: Bytes, count: nat) returns (out: Decoded)
    ensures out == DecodeJobs(c, shared, data, count, [])
  {
    hide ReadJob;
    var result: Bytes, pos, i := [], 0, 0;
    assert data[0..] == data;
    while i < count
      invariant 0 <= i <= count && 0 <= pos <= |data|
      invariant DecodeJobs(c, shared, data[pos..], count - i, result) == DecodeJobs(c, shared, data, count, [])
    {
      var turn := ReadJob(c, shared, data[pos..]);
      if !turn.Take? { return Invalid; }
      assert data[pos..][turn.used..] == data[pos + turn.used..];
      result, pos := result + turn.chunk, pos + turn.used;
      i := i + 1;
    }
    return Decoded(result);
  }

  method DecompressParallelMode(c: Codec, data: Bytes) returns (out: Decoded)
    ensures out == DecompressedParallel(c, data)
  {
    if |data| == 0 || data[0] != PARALLEL_MARK { return Decoded(data); }
    if |data| < 5 { return Invalid; }
    out := DecompressJobs(c, None, data[5..], FromLE(data[1..5]));
  }

  method DecompressStreamMode(c: Codec, data: Bytes) returns (out: Decoded)
    ensures out == DecompressedStream(c, data)
  {
    if |data| == 0 || data[0] != STREAM_MARK { return Decoded(data); }
    if |data| < 6 { return Invalid; }
    out := DecompressJobs(c, Some(data[5]), data[6..], FromLE(data[1..5]));
  }
}
