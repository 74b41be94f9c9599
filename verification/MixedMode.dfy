/** The mixed-mode container of smart_compression.go: a marker byte, then chunks, each behind a
    decimal `algorithm:size:` header and compressed with its own algorithm. */
module MixedMode {
  import opened Bytes
  import opened Codec
  import opened Decimal

  const MIXED_MARK: Byte := 1
  const DEFAULT_CHUNK := 65536

  /** How an algorithm is chosen for a chunk is left open; it is one of the four plain ones. */
  type Chooser = Bytes -> Byte

  ghost predicate Plain(pick: Chooser) {
    forall chunk: Bytes :: pick(chunk) <= GZIP
  }

  function Min(a: int, b: int): int {
    if a <= b then a else b
  }

  function ChunkSize(configured: int): nat {
    if configured <= 0 then DEFAULT_CHUNK else configured
  }

  function ChunkFrame(c: Codec, algorithm: Byte, chunk: Bytes): Bytes {
    var z := Encode(c, algorithm, chunk);
    Print(algorithm) + [COLON] + Print(|z|) + [COLON] + z
  }

  function ChunkFrames(c: Codec, pick: Chooser, data: Bytes, size: nat): Bytes
    requires size > 0
    decreases |data|
  {
    if data == [] then []
    else
      var n := Min(size, |data|);
      ChunkFrame(c, pick(data[..n]), data[..n]) + ChunkFrames(c, pick, data[n..], size)
  }

  function Compressed(c: Codec, pick: Chooser, data: Bytes, configured: int): Bytes {
    [MIXED_MARK] + ChunkFrames(c, pick, data, ChunkSize(configured))
  }

  // ---- decoding ----

  /** A decoder returns data or an error, or runs into a slice-bounds panic. */
  datatype Decoded = Decoded(data: Bytes) | Invalid | Panic

  /** The algorithm a header names; anything but "1", "2" and "3" means none. */
  function AlgorithmOf(s: Bytes): Byte {
    if s == [49] then SNAPPY else if s == [50] then ZSTD else if s == [51] then GZIP else NO_COMPRESSION
  }

  /** What one turn of the decoding loop finds at the front of the remaining bytes. */
  datatype Header = Header(algorithm: Byte, size: int, start: nat) | NoHeader | BadSize

  function ReadHeader(b: Bytes): (h: Header)
    ensures h.Header? ==> 2 <= h.start <= |b|
  {
    var colon1 := IndexByte(b, COLON);
    if colon1 == -1 then NoHeader
    else
      var rest := b[colon1 + 1..];
      var colon2 := IndexByte(rest, COLON);
      if colon2 == -1 then NoHeader
      else
        match Atoi(rest[..colon2])
        case None => BadSize
        case Some(size) => Header(AlgorithmOf(b[..colon1]), size, colon1 + colon2 + 2)
  }

  /** One turn of the decoding loop at `pos` bytes into the input: stop, give up, or take a chunk
      and move on. The end of a chunk is computed in 64-bit arithmetic. */
  datatype Turn = Stop | Fail(outcome: Decoded) | Take(chunk: Bytes, used: nat)

  function ReadChunk(c: Codec, b: Bytes, pos: nat): (t: Turn)
    ensures t.Take? ==> 2 <= t.used <= |b|
  {
    match ReadHeader(b)
    case NoHeader => Stop
    case BadSize => Fail(Invalid)
    case Header(algorithm, size, start) =>
      if size < 0 || pos + start + size > MAX_INT then Fail(Panic)
      else if start + size > |b| then Fail(Invalid)
      else
        match Decompress(c, b[start..start + size], algorithm)
        case None => Fail(Invalid)
        case Some(chunk) => Take(chunk, start + size)
  }

  /** The rest of the decoding loop. Every turn that goes on consumes at least the two colons. */
  function DecodeFrom(c: Codec, b: Bytes, pos: nat, acc: Bytes): Decoded
    decreases |b|
  {
    if b == [] then Decoded(acc)
    else
      match ReadChunk(c, b, pos)
      case Stop => Decoded(acc)
      case Fail(outcome) => outcome
      case Take(chunk, used) => DecodeFrom(c, b[used..], pos + used, acc + chunk)
  }

  function Decompressed(c: Codec, b: Bytes): Decoded {
    if b == [] || b[0] != MIXED_MARK then Decoded(b) else DecodeFrom(c, b[1..], 1, [])
  }

  // ---- round trip ----

  lemma AlgorithmPrinted(a: Byte)
    requires a <= GZIP
    ensures Print(a) == [48 + a] && AlgorithmOf(Print(a)) == a
  {
  }

  /** The header is found behind the first two colons, whatever bytes the chunk has. */
  lemma ReadFrameHeader(c: Codec, a: Byte, chunk: Bytes, tail: Bytes)
    requires a <= GZIP && |Encode(c, a, chunk)| <= MAX_INT
    ensures var z := Encode(c, a, chunk);
      ReadHeader(ChunkFrame(c, a, chunk) + tail) == Header(a, |z|, |ChunkFrame(c, a, chunk)| - |z|)
  {
    var z := Encode(c, a, chunk);
    var b := ChunkFrame(c, a, chunk) + tail;
    AlgorithmPrinted(a);
    AtoiPrint(a);
    AtoiPrint(|z|);
    assert b == Print(a) + [COLON] + (Print(|z|) + [COLON] + z + tail);
    IndexAfter(Print(a), COLON, Print(|z|) + [COLON] + z + tail);
    var rest := b[|Print(a)| + 1..];
    assert rest == Print(|z|) + [COLON] + (z + tail);
    IndexAfter(Print(|z|), COLON, z + tail);
    assert rest[..|Print(|z|)|] == Print(|z|);
    assert b[..|Print(a)|] == Print(a);
  }

  lemma ReadFrame(c: Codec, a: Byte, chunk: Bytes, tail: Bytes, pos: nat)
    requires Lawful(c) && a <= GZIP && pos + |ChunkFrame(c, a, chunk)| <= MAX_INT
    ensures ReadChunk(c, ChunkFrame(c, a, chunk) + tail, pos) == Take(chunk, |ChunkFrame(c, a, chunk)|)
  {
    hide ReadHeader, Print;
    var z, f := Encode(c, a, chunk), ChunkFrame(c, a, chunk);
    ReadFrameHeader(c, a, chunk, tail);
    var start := |f| - |z|;
    assert (f + tail)[start..start + |z|] == z;
  }

  lemma DecodeFrame(c: Codec, a: Byte, chunk: Bytes, tail: Bytes, pos: nat, acc: Bytes)
    requires Lawful(c) && a <= GZIP && pos + |ChunkFrame(c, a, chunk)| <= MAX_INT
    ensures DecodeFrom(c, ChunkFrame(c, a, chunk) + tail, pos, acc)
         == DecodeFrom(c, tail, pos + |ChunkFrame(c, a, chunk)|, acc + chunk)
  {
    hide ReadChunk, ChunkFrame;
    var f := ChunkFrame(c, a, chunk);
    ReadFrame(c, a, chunk, tail, pos);
    assert (f + tail)[|f|..] == tail;
  }

  lemma {:induction false} DecodeFrames(c: Codec, pick: Chooser, data: Bytes, size: nat, pos: nat, acc: Bytes)
    requires Lawful(c) && Plain(pick) && size > 0
    requires pos + |ChunkFrames(c, pick, data, size)| <= MAX_INT
    ensures DecodeFrom(c, ChunkFrames(c, pick, data, size), pos, acc) == Decoded(acc + data)
    decreases |data|
  {
    hide ReadChunk, ChunkFrame;
    if data == [] {
      assert acc + [] == acc;
    } else {
      var n := Min(size, |data|);
      var chunk, rest := data[..n], data[n..];
      DecodeFrame(c, pick(chunk), chunk, ChunkFrames(c, pick, rest, size), pos, acc);
      DecodeFrames(c, pick, rest, size, pos + |ChunkFrame(c, pick(chunk), chunk)|, acc + chunk);
      assert (acc + chunk) + rest == acc + data by { assert chunk + rest == data; }
    }
  }

  /** For every input, chunk size and choice of algorithms, decoding gives the input back, as
      long as the container's length is an int. */
  lemma MixedRoundTrip(c: Codec, pick: Chooser, data: Bytes, configured: int)
    requires Lawful(c) && Plain(pick) && |Compressed(c, pick, data, configured)| <= MAX_INT
    ensures Decompressed(c, Compressed(c, pick, data, configured)) == Decoded(data)
  {
    var z := Compressed(c, pick, data, configured);
    assert z[1..] == ChunkFrames(c, pick, data, ChunkSize(configured));
    DecodeFrames(c, pick, data, ChunkSize(configured), 1, []);
    assert [] + data == data;
  }

  // ---- the loops ----

  lemma ChunkBounds(len: nat, size: nat, chunks: nat, i: nat)
    requires size > 0 && chunks == len / size + (if len % size != 0 then 1 else 0)
    ensures i < chunks ==> i * size < len
    ensures i == chunks ==> i * size >= len
    ensures (i + 1) * size == i * size + size
  {
    assert len == (len / size) * size + len % size;
    if i < chunks {
      if i < len / size {
        assert (i + 1) * size <= (len / size) * size;
      }
    }
  }

  method CompressMixedMode(c: Codec, pick: Chooser, data: Bytes, configured: int) returns (out: Bytes)
    ensures out == Compressed(c, pick, data, configured)
  {
    hide ChunkFrame, ChunkFrames;
    var chunkSize := if configured <= 0 then DEFAULT_CHUNK else configured;
    NoChunks(c, pick, chunkSize);
    var chunks := |data| / chunkSize;
    if |data| % chunkSize != 0 {
      chunks := chunks + 1;
    }
    out := [MIXED_MARK];
    var i := 0;
    ghost var done := 0;
    assert data[0..] == data;
    while i < chunks
      invariant 0 <= i <= chunks && done == Min(i * chunkSize, |data|)
      invariant out + ChunkFrames(c, pick, data[done..], chunkSize) == Compressed(c, pick, data, configured)
    {
      ChunkBounds(|data|, chunkSize, chunks, i);
      var start := i * chunkSize;
      var end := start + chunkSize;
      if end > |data| {
        end := |data|;
      }
      ChunkStep(c, pick, data, chunkSize, start, end);
      var frame := CompressChunk(c, pick, data[start..end]);
      out, done := out + frame, end;
      i := i + 1;
    }
    ChunkBounds(|data|, chunkSize, chunks, chunks);
    assert data[|data|..] == [];
  }

  lemma NoChunks(c: Codec, pick: Chooser, size: nat)
    requires size > 0
    ensures ChunkFrames(c, pick, [], size) == []
  {
  }

  method CompressChunk(c: Codec, pick: Chooser, chunk: Bytes) returns (frame: Bytes)
    ensures frame == ChunkFrame(c, pick(chunk), chunk)
  {
    var algorithm := pick(chunk);
    var compressed := Encode(c, algorithm, chunk);
    frame := Print(algorithm) + [COLON] + Print(|compressed|) + [COLON] + compressed;
  }

  lemma ChunkStep(c: Codec, pick: Chooser, data: Bytes, size: nat, start: nat, end: nat)
    requires size > 0 && start < |data| && end == Min(start + size, |data|)
    ensures ChunkFrames(c, pick, data[start..], size)
         == ChunkFrame(c, pick(data[start..end]), data[start..end]) + ChunkFrames(c, pick, data[end..], size)
  {
    var rest := data[start..];
    assert rest[..end - start] == data[start..end] && rest[end - start..] == data[end..];
  }

  method DecompressMixedMode(c: Codec, data: Bytes) returns (out: Decoded)
    ensures out == Decompressed(c, data)
  {
    hide ReadChunk;
    if |data| == 0 || data[0] != MIXED_MARK { return Decoded(data); }
    var result: Bytes, pos := [], 1;
    while pos < |data|
      invariant 1 <= pos <= |data|
      invariant DecodeFrom(c, data[pos..], pos, result) == Decompressed(c, data)
    {
      var turn := DecompressChunk(c, data, pos);
      if turn.Stop? { break; }
      if turn.Fail? { return turn.outcome; }
      assert data[pos..][turn.used..] == data[pos + turn.used..];
      result := result + turn.chunk;
      pos := pos + turn.used;
    }
    return Decoded(result);
  }

  /** The body of the loop, on positions in the whole input. */
  method DecompressChunk(c: Codec, data: Bytes, pos: nat) returns (turn: Turn)
    requires pos < |data|
    ensures turn == ReadChunk(c, data[pos..], pos)
  {
    hide ReadHeader;
    var header := ReadHeader(data[pos..]);
    if header.NoHeader? { return Stop; }
    if header.BadSize? { return Fail(Invalid); }
    var dataStart := pos + header.start;
    var dataEnd := dataStart + header.size;
    if header.size < 0 || dataEnd > MAX_INT { return Fail(Panic); }
    if dataEnd > |data| { return Fail(Invalid); }
    var chunkData := data[dataStart..dataEnd];
    assert data[pos..][header.start..header.start + header.size] == chunkData;
    var decompressed := Decompress(c, chunkData, header.algorithm);
    if decompressed.None? { return Fail(Invalid); }
    return Take(decompressed.value, header.start + header.size);
  }
}
