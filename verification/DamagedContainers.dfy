/** Containers that were cut short, or whose fields do not fit their contents. */
module DamagedContainers {
  import opened Bytes
  import opened Codec
  import opened Decimal
  import opened MixedMode
  import opened ChunkedModes
  import opened Formats

  /** Data that do not begin with the mark of the form are given back as they are. */
  lemma UnmarkedPass(c: Codec, b: Bytes)
    ensures b == [] || b[0] != 1 ==> Decompressed(c, b) == Decoded(b)
    ensures b == [] || b[0] != 2 ==> DecompressedParallel(c, b) == Decoded(b)
    ensures b == [] || b[0] != 3 ==> DecompressedStream(c, b) == Decoded(b)
  {
  }

  // ---- parallel and stream ----

  lemma ReadCutSized(c: Codec, a: Byte, chunk: Bytes, n: nat)
    requires |Encode(c, a, chunk)| < TWO32 && n < |SizedFrame(c, a, chunk)|
    ensures ReadSized(c, a, SizedFrame(c, a, chunk)[..n]).Fail?
  {
    hide LE, FromLE, Encode, Decompress;
    var z, b := Encode(c, a, chunk), SizedFrame(c, a, chunk)[..n];
    if n >= 8 {
      Pow256Widths();
      LERoundTrip(|z|, 4);
      assert b[4..8] == LE(|z|, 4);
    }
  }

  lemma ReadCutFrame(c: Codec, shared: Option<Byte>, job: Job, n: nat)
    requires SharedBy(shared, job) && |Encode(c, job.algorithm, job.chunk)| < TWO32
    requires n < |JobFrame(c, shared.Some?, job)|
    ensures ReadJob(c, shared, JobFrame(c, shared.Some?, job)[..n]).Fail?
  {
    hide ReadSized, SizedFrame, Encode;
    var f, sized := JobFrame(c, shared.Some?, job), SizedFrame(c, job.algorithm, job.chunk);
    if shared.Some? {
      assert f == sized;
      ReadCutSized(c, job.algorithm, job.chunk, n);
    } else if n > 0 {
      assert f[..n][1..] == sized[..n - 1] && f[..n][0] == job.algorithm;
      ReadCutSized(c, job.algorithm, job.chunk, n - 1);
    }
  }

  lemma {:induction false} DecodeCutJobs(c: Codec, shared: Option<Byte>, jobs: seq<Job>, n: nat, acc: Bytes)
    requires Lawful(c) && n < |JobFrames(c, shared.Some?, jobs)|
    requires forall job :: job in jobs ==>
      SharedBy(shared, job) && |job.chunk| < TWO32 && |Encode(c, job.algorithm, job.chunk)| < TWO32
    ensures DecodeJobs(c, shared, JobFrames(c, shared.Some?, jobs)[..n], |jobs|, acc) == Invalid
    decreases |jobs|
  {
    hide JobFrame, ReadJob;
    var f, rest := JobFrame(c, shared.Some?, jobs[0]), JobFrames(c, shared.Some?, jobs[1..]);
    assert jobs[0] in jobs;
    if n < |f| {
      assert (f + rest)[..n] == f[..n];
      ReadCutFrame(c, shared, jobs[0], n);
    } else {
      assert (f + rest)[..n] == f + rest[..n - |f|];
      ReadJobFrame(c, shared, jobs[0], rest[..n - |f|]);
      assert (f + rest[..n - |f|])[|f|..] == rest[..n - |f|];
      DecodeCutJobs(c, shared, jobs[1..], n - |f|, acc + jobs[0].chunk);
    }
  }

  lemma CutBehind(head: Bytes, body: Bytes, n: nat)
    requires |head| <= n <= |head| + |body|
    ensures (head + body)[..n] == head + body[..n - |head|]
  {
  }

  lemma CutInside(head: Bytes, body: Bytes, n: nat)
    requires n <= |head|
    ensures (head + body)[..n] == head[..n]
  {
  }

  lemma StreamHead(c: Codec, count: nat, a: Byte, rest: Bytes)
    requires count < TWO32
    ensures DecompressedStream(c, [STREAM_MARK] + LE(count, 4) + [a] + rest) == DecodeJobs(c, Some(a), rest, count, [])
  {
    hide LE, FromLE, DecodeJobs;
    var b := [STREAM_MARK] + LE(count, 4) + [a] + rest;
    Pow256Widths();
    LERoundTrip(count, 4);
    assert b[1..5] == LE(count, 4) && b[5] == a && b[6..] == rest;
  }

  lemma ParallelHead(c: Codec, count: nat, rest: Bytes)
    requires count < TWO32
    ensures DecompressedParallel(c, [PARALLEL_MARK] + LE(count, 4) + rest) == DecodeJobs(c, None, rest, count, [])
  {
    hide LE, FromLE, DecodeJobs;
    var b := [PARALLEL_MARK] + LE(count, 4) + rest;
    Pow256Widths();
    LERoundTrip(count, 4);
    assert b[1..5] == LE(count, 4) && b[5..] == rest;
  }

  lemma ShortHead(c: Codec, b: Bytes)
    requires b != []
    ensures b[0] == STREAM_MARK && |b| < 6 ==> DecompressedStream(c, b) == Invalid
    ensures b[0] == PARALLEL_MARK && |b| < 5 ==> DecompressedParallel(c, b) == Invalid
  {
  }

  /** A stream container cut anywhere is refused. */
  lemma StreamCut(c: Codec, pick: Chooser, data: Bytes, size: nat, n: nat)
    requires Lawful(c) && size > 0 && Fits32(c, data) && 0 < n < |CompressedStream(c, pick, data, size)|
    ensures DecompressedStream(c, CompressedStream(c, pick, data, size)[..n]) == Invalid
  {
    hide CeilDiv, JobFrames, Jobs, DecodeJobs, DecompressedStream, LE;
    var count, one: Chooser := CeilDiv(|data|, size), _ => pick(data);
    var jobs := Jobs(one, data, size, count);
    var head, body := [STREAM_MARK] + LE(count, 4) + [pick(data)], JobFrames(c, true, jobs);
    if n < 6 {
      CutInside(head, body, n);
      ShortHead(c, head[..n]);
    } else {
      CutBehind(head, body, n);
      CeilAtMost(|data|, size);
      StreamHead(c, count, pick(data), body[..n - 6]);
      JobsSmall(one, data, size, count);
      DecodeCutJobs(c, Some(pick(data)), jobs, n - 6, []);
    }
  }

  /** So is a parallel one. */
  lemma ParallelCut(c: Codec, pick: Chooser, data: Bytes, configured: int, most: nat, n: nat)
    requires Lawful(c) && most > 0 && Fits32(c, data) && 0 < n < |CompressedParallel(c, pick, data, configured, most)|
    ensures DecompressedParallel(c, CompressedParallel(c, pick, data, configured, most)[..n]) == Invalid
  {
    hide ParallelPlan, JobFrames, Jobs, DecodeJobs, DecompressedParallel, LE;
    var plan := ParallelPlan(|data|, configured, most);
    var jobs := Jobs(pick, data, plan.size, plan.chunks);
    var head, body := [PARALLEL_MARK] + LE(plan.chunks, 4), JobFrames(c, false, jobs);
    if n < 5 {
      CutInside(head, body, n);
      ShortHead(c, head[..n]);
    } else {
      CutBehind(head, body, n);
      PlanAtMost(|data|, configured, most);
      ParallelHead(c, plan.chunks, body[..n - 5]);
      JobsSmall(pick, data, plan.size, plan.chunks);
      DecodeCutJobs(c, None, jobs, n - 5, []);
    }
  }

  /** One piece with any bytes and any size fields that fit: it is accepted if and only if it decodes,
      under the named algorithm, to data of the length that was written. */
  lemma OnePieceDecodes(c: Codec, a: Byte, original: nat, z: Bytes, tail: Bytes)
    requires original < 0x1_0000_0000 && |z| < 0x1_0000_0000
    ensures var piece := if 1 <= a <= 3 then c.decode(a, z) else Some(z);
      DecompressedStream(c, [3] + Little32(1) + [a] + Little32(original) + Little32(|z|) + z + tail)
      == if piece.Some? && |piece.value| == original then Decoded(piece.value) else Invalid
  {
    hide LE, FromLE, Little32;
    var b := [3] + Little32(1) + [a] + Little32(original) + Little32(|z|) + z + tail;
    LittleFields(1);
    LittleFields(original);
    LittleFields(|z|);
    Pow256Widths();
    LERoundTrip(1, 4);
    LERoundTrip(original, 4);
    LERoundTrip(|z|, 4);
    var rest := LE(original, 4) + LE(|z|, 4) + z + tail;
    assert b == [3] + LE(1, 4) + [a] + rest;
    assert b[1..5] == LE(1, 4) && b[5] == a && b[6..] == rest;
    OneJob(c, a, rest);
    SizedReads(c, a, LE(original, 4), LE(|z|, 4), z, tail);
  }

  lemma SizedReads(c: Codec, a: Byte, x: Bytes, y: Bytes, z: Bytes, tail: Bytes)
    requires |x| == |y| == 4 && FromLE(y) == |z|
    ensures ReadSized(c, a, x + y + z + tail)
         == match Decompress(c, z, a) case None => Fail(Invalid)
            case Some(chunk) => if |chunk| != FromLE(x) then Fail(Invalid) else Take(chunk, 8 + |z|)
  {
    hide FromLE, Decompress;
    var b := x + y + z + tail;
    assert b == x + (y + (z + tail));
    assert b[..4] == x && b[4..8] == y;
    assert b[8..] == z + tail && b[8..8 + |z|] == z;
  }

  lemma OneJob(c: Codec, a: Byte, b: Bytes)
    ensures DecodeJobs(c, Some(a), b, 1, [])
         == match ReadSized(c, a, b) case Take(chunk, _) => Decoded(chunk) case _ => Invalid
  {
    hide ReadSized;
    var t := ReadSized(c, a, b);
    if t.Take? {
      assert DecodeJobs(c, Some(a), b, 1, []) == DecodeJobs(c, Some(a), b[t.used..], 0, [] + t.chunk);
      assert [] + t.chunk == t.chunk;
    }
  }

  // ---- mixed ----

  /** What n bytes of the chunks bring back: cut behind a chunk or inside a header, the chunks before,
      and no error; cut inside what a header announces, an error. */
  function CutMeans(c: Codec, pick: Chooser, data: Bytes, size: nat, n: nat, acc: Bytes): Decoded
    requires size > 0
    decreases |data|
  {
    if data == [] then Decoded(acc)
    else
      var m := Min(size, |data|);
      var z := Packed(c, pick(data[..m]), data[..m]);
      var header := 2 + |Print(|z|)| + 1;
      if n < header then Decoded(acc)
      else if n < header + |z| then Invalid
      else CutMeans(c, pick, data[m..], size, n - header - |z|, acc + data[..m])
  }

  /** Without a second colon there is no header. */
  lemma CutHeader(a: Byte, digits: Bytes, n: nat)
    requires 48 <= a <= 51 && COLON !in digits && n < |digits| + 3
    ensures ReadHeader(([a] + [COLON] + digits + [COLON])[..n]) == NoHeader
  {
    var b := ([a] + [COLON] + digits + [COLON])[..n];
    if n >= 2 {
      var rest := b[2..];
      assert b == [a] + [COLON] + rest && rest == digits[..n - 2];
      IndexAfter([a], COLON, rest);
      assert b[1 + 1..] == rest;
    }
  }

  lemma ReadCutChunk(c: Codec, a: Byte, chunk: Bytes, n: nat, pos: nat)
    requires a <= GZIP && pos + |ChunkFrame(c, a, chunk)| <= MAX_INT && n < |ChunkFrame(c, a, chunk)|
    ensures var z := Encode(c, a, chunk);
      ReadChunk(c, ChunkFrame(c, a, chunk)[..n], pos) == if n < |Print(|z|)| + 3 then Stop else Fail(Invalid)
  {
    hide Print, ReadHeader, Decompress, Encode;
    var z, f := Encode(c, a, chunk), ChunkFrame(c, a, chunk);
    AtoiPrint(|z|);
    AlgorithmPrinted(a);
    var header := [48 + a] + [COLON] + Print(|z|) + [COLON];
    assert f == header + z && |header| == |Print(|z|)| + 3;
    if n < |header| {
      assert f[..n] == header[..n];
      CutHeader(48 + a, Print(|z|), n);
    } else {
      var some := z[..n - |header|];
      assert f[..n] == header + some;
      HeaderReads(a, z, some);
    }
  }

  /** A whole header is read whatever follows it, be it less than announced. */
  lemma HeaderReads(a: Byte, z: Bytes, some: Bytes)
    requires a <= GZIP && |z| <= MAX_INT
    ensures var header := [48 + a] + [COLON] + Print(|z|) + [COLON];
      ReadHeader(header + some) == Header(a, |z|, |header|)
  {
    hide Print, Atoi;
    var digits := Print(|z|);
    var b := [48 + a] + [COLON] + digits + [COLON] + some;
    AtoiPrint(|z|);
    AlgorithmPrinted(a);
    var rest := digits + [COLON] + some;
    assert b == [48 + a] + [COLON] + rest;
    IndexAfter([48 + a], COLON, rest);
    assert b[1 + 1..] == rest && b[..1] == [48 + a];
    IndexAfter(digits, COLON, some);
    assert rest[..|digits|] == digits;
  }

  lemma {:induction false} DecodeCutFrames(c: Codec, pick: Chooser, data: Bytes, size: nat, n: nat, pos: nat,
                                           acc: Bytes)
    requires Lawful(c) && Plain(pick) && size > 0
    requires n <= |ChunkFrames(c, pick, data, size)| && pos + |ChunkFrames(c, pick, data, size)| <= MAX_INT
    ensures DecodeFrom(c, ChunkFrames(c, pick, data, size)[..n], pos, acc) == CutMeans(c, pick, data, size, n, acc)
    decreases |data|
  {
    hide ReadChunk, ChunkFrame, Print;
    if data != [] {
      var m := Min(size, |data|);
      var chunk, rest := data[..m], ChunkFrames(c, pick, data[m..], size);
      var f, z := ChunkFrame(c, pick(chunk), chunk), Encode(c, pick(chunk), chunk);
      FrameLength(c, pick(chunk), chunk);
      if n < |f| {
        assert (f + rest)[..n] == f[..n];
        ReadCutChunk(c, pick(chunk), chunk, n, pos);
        if n == 0 {
          assert f[..0] == [];
        }
      } else {
        assert (f + rest)[..n] == f + rest[..n - |f|];
        DecodeFrame(c, pick(chunk), chunk, rest[..n - |f|], pos, acc);
        DecodeCutFrames(c, pick, data[m..], size, n - |f|, pos + |f|, acc + chunk);
      }
    }
  }

  lemma FrameLength(c: Codec, a: Byte, chunk: Bytes)
    requires a <= GZIP
    ensures |ChunkFrame(c, a, chunk)| == 2 + |Print(|Encode(c, a, chunk)|)| + 1 + |Encode(c, a, chunk)|
    ensures Encode(c, a, chunk) == Packed(c, a, chunk)
  {
    AlgorithmPrinted(a);
  }

  /** A mixed container cut anywhere: exactly the chunks before the cut, or an error if the cut is behind a
      header and before the end of its chunk. A cut behind a chunk goes unnoticed. */
  lemma MixedCut(c: Codec, pick: Chooser, data: Bytes, configured: int, n: nat)
    requires Lawful(c) && Plain(pick) && 0 < n <= |Compressed(c, pick, data, configured)| <= MAX_INT
    ensures Decompressed(c, Compressed(c, pick, data, configured)[..n])
         == CutMeans(c, pick, data, if configured <= 0 then 65536 else configured, n - 1, [])
  {
    hide ChunkFrames, DecodeFrom, CutMeans;
    var size := ChunkSize(configured);
    var body := ChunkFrames(c, pick, data, size);
    CutBehind([MIXED_MARK], body, n);
    var cut := [MIXED_MARK] + body[..n - 1];
    assert cut[1..] == body[..n - 1];
    DecodeCutFrames(c, pick, data, size, n - 1, 1, []);
  }

  /** The first chunk of a mixed container, whatever its header says: a size that is no number or beyond
      the end is an error, a negative one a panic, and any algorithm but "1", "2" and "3" means none. */
  lemma MixedHeaderDecides(c: Codec, algorithm: Bytes, size: Bytes, rest: Bytes)
    requires COLON !in algorithm && COLON !in size && |algorithm| + |size| + |rest| + 3 <= MAX_INT
    ensures var z, start := [1] + algorithm + [58] + size + [58] + rest, |algorithm| + |size| + 3;
      Decompressed(c, z) ==
        match Atoi(size)
        case None => Invalid
        case Some(n) =>
          if n < 0 || start + n > MAX_INT then Panic
          else if n > |rest| then Invalid
          else
            match Unpacked(c, algorithm, rest[..n])
            case None => Invalid
            case Some(piece) => DecodeFrom(c, rest[n..], start + n, piece)
  {
    hide Atoi, DecodeFrom, ReadChunk;
    var b := algorithm + [COLON] + size + [COLON] + rest;
    var z := [1] + algorithm + [58] + size + [58] + rest;
    assert z[1..] == b && b != [];
    TurnsOn(c, b);
    ChunkFound(c, algorithm, size, rest);
    var start := |algorithm| + |size| + 2;
    match Atoi(size)
    case None =>
    case Some(n) =>
      if 0 <= n <= |rest| {
        DropBehind(algorithm, size, rest, n);
      }
  }

  lemma DropBehind(algorithm: Bytes, size: Bytes, rest: Bytes, n: nat)
    requires n <= |rest|
    ensures var b, start := algorithm + [COLON] + size + [COLON] + rest, |algorithm| + |size| + 2;
      b[start..start + n] == rest[..n] && b[start + n..] == rest[n..]
  {
    var b := algorithm + [COLON] + size + [COLON] + rest;
    assert b[|algorithm| + |size| + 2..] == rest;
  }

  /** What an algorithm's name makes of stored bytes. */
  function Unpacked(c: Codec, algorithm: Bytes, z: Bytes): Option<Bytes> {
    if algorithm == [49] then c.decode(1, z)
    else if algorithm == [50] then c.decode(2, z)
    else if algorithm == [51] then c.decode(3, z)
    else Some(z)
  }

  lemma ChunkFound(c: Codec, algorithm: Bytes, size: Bytes, rest: Bytes)
    requires COLON !in algorithm && COLON !in size
    ensures var start := |algorithm| + |size| + 2;
      ReadChunk(c, algorithm + [COLON] + size + [COLON] + rest, 1) ==
        match Atoi(size)
        case None => Fail(Invalid)
        case Some(n) =>
          if n < 0 || 1 + start + n > MAX_INT then Fail(Panic)
          else if n > |rest| then Fail(Invalid)
          else
            match Unpacked(c, algorithm, rest[..n])
            case None => Fail(Invalid)
            case Some(piece) => Take(piece, start + n)
  {
    hide Atoi, ReadHeader;
    HeaderFound(algorithm, size, rest);
    match Atoi(size)
    case None =>
    case Some(n) =>
      if 0 <= n <= |rest| {
        DropBehind(algorithm, size, rest, n);
      }
  }

  lemma HeaderFound(algorithm: Bytes, size: Bytes, rest: Bytes)
    requires COLON !in algorithm && COLON !in size
    ensures ReadHeader(algorithm + [COLON] + size + [COLON] + rest)
         == match Atoi(size) case None => BadSize
            case Some(n) => Header(AlgorithmOf(algorithm), n, |algorithm| + |size| + 2)
  {
    hide Atoi, AlgorithmOf;
    var b, tail := algorithm + [COLON] + size + [COLON] + rest, size + [COLON] + rest;
    assert b == algorithm + [COLON] + tail;
    IndexAfter(algorithm, COLON, tail);
    assert b[|algorithm| + 1..] == tail && b[..|algorithm|] == algorithm;
    IndexAfter(size, COLON, rest);
    assert tail[..|size|] == size;
  }

  lemma TurnsOn(c: Codec, b: Bytes)
    requires b != []
    ensures DecodeFrom(c, b, 1, []) ==
      match ReadChunk(c, b, 1) case Stop => Decoded([]) case Fail(outcome) => outcome
      case Take(chunk, used) => DecodeFrom(c, b[used..], 1 + used, chunk)
  {
    hide ReadChunk;
    var t := ReadChunk(c, b, 1);
    if t.Take? {
      assert [] + t.chunk == t.chunk;
    }
  }
}
