/** Every format on disk and in memory, byte by byte, in literal numbers: what a reader written from
    the formats alone could rely on, without any of the decoders. */
module Formats {
  import opened Bytes
  import opened Codec
  import opened Decimal
  import opened Entry
  import S = Store
  import opened Wal
  import WalManager
  import ReadPath
  import BatchRead
  import opened MixedMode
  import opened ChunkedModes

  // ---- numbers ----

  function Big16(n: nat): Bytes {
    [n / 0x100 % 256, n % 256]
  }

  function Big32(n: nat): Bytes {
    [n / 0x100_0000 % 256, n / 0x1_0000 % 256, n / 0x100 % 256, n % 256]
  }

  function Little32(n: nat): Bytes {
    [n % 256, n / 0x100 % 256, n / 0x1_0000 % 256, n / 0x100_0000 % 256]
  }

  lemma Big16Field(n: nat)
    ensures BE(n, 2) == Big16(n)
  {
    var a := n / 256;
    assert BE(a, 1) == BE(a / 256, 0) + [a % 256];
    assert BE(n, 2) == BE(a, 1) + [n % 256];
  }

  lemma BigStep(n: nat, w: nat)
    ensures BE(n, w + 1) == BE(n / 256, w) + [n % 256]
  {
  }

  lemma BigFields(n: nat)
    ensures BE(n, 2) == Big16(n) && BE(n, 4) == Big32(n)
  {
    hide BE;
    Big16Field(n);
    var a := n / 256;
    var b := a / 256;
    Big16Field(b);
    BigStep(n, 3);
    BigStep(a, 2);
    Quotients(n, a, b, b / 256);
  }

  lemma Quotients(n: nat, a: nat, b: nat, d: nat)
    requires a == n / 256 && b == a / 256 && d == b / 256
    ensures b == n / 0x1_0000 && d == n / 0x100_0000
  {
  }

  lemma LittleFields(n: nat)
    ensures LE(n, 4) == Little32(n)
  {
    var a, b := n / 256, n / 256 / 256;
    assert LE(b / 256, 1) == [b / 256 % 256] by {
      assert LE(b / 256 / 256, 0) == [];
    }
    assert LE(b, 2) == [b % 256] + LE(b / 256, 1);
    assert LE(a, 3) == [a % 256] + LE(b, 2);
    Quotients(n, a, b, b / 256);
  }

  /** The number a string of decimal digits denotes. */
  function DecimalValue(s: Bytes): int {
    if s == [] then 0 else 10 * DecimalValue(s[..|s| - 1]) + s[|s| - 1] - 48
  }

  /** %d prints the digits '0' to '9' of the number, without a leading zero. */
  lemma {:induction false} PrintIsDecimal(n: nat)
    ensures DecimalValue(Print(n)) == n
    ensures forall d :: d in Print(n) ==> 48 <= d <= 57
    ensures |Print(n)| > 1 ==> Print(n)[0] != 48
  {
    if n < 10 {
      assert Print(n)[..0] == [];
    } else {
      PrintIsDecimal(n / 10);
      assert Print(n)[..|Print(n)| - 1] == Print(n / 10);
      if n < 100 {
        assert Print(n / 10) == [48 + n / 10];
      }
    }
  }

  predicate AllDigits(s: Bytes) {
    s != [] && forall d :: d in s ==> 48 <= d <= 57
  }

  lemma AllDigitsLast(s: Bytes)
    requires |s| > 1
    ensures AllDigits(s) <==> AllDigits(s[..|s| - 1]) && IsDigit(s[|s| - 1])
  {
    var init, last := s[..|s| - 1], s[|s| - 1];
    assert last in s && forall d :: d in init ==> d in s;
    assert s == init + [last];
  }

  lemma {:induction false} DigitsAre(s: Bytes)
    ensures Digits(s) == if AllDigits(s) then Some(DecimalValue(s)) else None
  {
    if |s| == 1 {
      assert s[0] in s && s == [s[0]] && s[..0] == [];
      assert DecimalValue(s[..0]) == 0;
    } else if s != [] {
      hide AllDigits;
      DigitsAre(s[..|s| - 1]);
      AllDigitsLast(s);
    }
  }

  /** Atoi takes decimal digits, with a plus (43) or a minus (45) before them if there is one, and
      refuses everything else and what 64 bits cannot hold. */
  lemma AtoiIs(s: Bytes)
    ensures Atoi(s) ==
      if AllDigits(s) then if DecimalValue(s) < 0x8000_0000_0000_0000 then Some(DecimalValue(s)) else None
      else if |s| < 2 || !AllDigits(s[1..]) then None
      else
        var n := DecimalValue(s[1..]);
        if s[0] == 43 && n < 0x8000_0000_0000_0000 then Some(n)
        else if s[0] == 45 && n <= 0x8000_0000_0000_0000 then Some(-n)
        else None
  {
    hide Digits, DecimalValue;
    DigitsAre(s);
    if s != [] {
      assert s[0] in s;
      DigitsAre(s[1..]);
    }
  }

  // ---- data file entries ----

  /** What standard compression stores. */
  function Stored(c: Codec, configured: Byte, data: Bytes): (Bytes, Byte) {
    if data != [] && 1 <= configured <= 3 then (c.encode(configured, data), configured) else (data, 0)
  }

  lemma CompressIs(c: Codec, configured: Byte, data: Bytes)
    ensures Compress(c, configured, data) == Stored(c, configured, data)
  {
  }

  /** The bytes of an entry: the checksum of the rest, time stamp, expiry, key size, value size,
      compression tag, key, value. */
  function EntryBytes(c: Codec, ts: U32, ttl: U32, tag: Byte, key: Bytes, value: Bytes): Bytes {
    var rest := Big32(ts) + Big32(ttl) + Big16(|key|) + Big32(|value|) + [tag] + key + value;
    Big32(c.crc(rest)) + rest
  }

  lemma SealedBytes(c: Codec, ts: U32, ttl: U32, tag: Byte, key: Bytes, value: Bytes)
    requires |key| < 0x1_0000 && |value| < 0x1_0000_0000
    ensures Serialize(Seal(c, ts, ttl, tag, key, value)) == EntryBytes(c, ts, ttl, tag, key, value)
  {
    hide BE, Big32, Big16;
    var e := Seal(c, ts, ttl, tag, key, value);
    BigFields(ts);
    BigFields(ttl);
    BigFields(|key|);
    BigFields(|value|);
    BigFields(e.crc);
    var rest := Big32(ts) + Big32(ttl) + Big16(|key|) + Big32(|value|) + [tag] + key + value;
    assert CrcInput(e) == rest;
    assert Serialize(e) == BE(e.crc, 4) + CrcInput(e) by {
      CrcCoversTheRest(e);
      assert Serialize(e)[..4] == BE(e.crc, 4);
      assert Serialize(e) == Serialize(e)[..4] + Serialize(e)[4..];
    }
  }

  /** What a Put and what a Delete append to the file that is active when they write. */
  lemma PutBytes(env: S.Env, key: Bytes, value: Bytes, ts: U32, deadline: U32)
    requires |key| < 0x1_0000 && |Stored(env.codec, env.compression, value).0| < 0x1_0000_0000
    ensures var (z, tag) := Stored(env.codec, env.compression, value);
      Serialize(S.PutEntry(env, key, value, ts, deadline)) == EntryBytes(env.codec, ts, deadline, tag, key, z)
  {
    hide Serialize, Seal, EntryBytes;
    CompressIs(env.codec, env.compression, value);
    var (z, tag) := Stored(env.codec, env.compression, value);
    SealedBytes(env.codec, ts, deadline, tag, key, z);
  }

  lemma DeleteBytes(env: S.Env, key: Bytes, ts: U32)
    requires |key| < 0x1_0000
    requires |Stored(env.codec, env.compression, Text("__DELETED__")).0| < 0x1_0000_0000
    ensures var z := Stored(env.codec, env.compression, Text("__DELETED__")).0;
      Serialize(S.TombstoneEntry(env, key, ts)) == EntryBytes(env.codec, ts, 0, env.compression, key, z)
  {
    hide Serialize, Seal, EntryBytes;
    MarkerText();
    CompressIs(env.codec, env.compression, TOMBSTONE);
    SealedBytes(env.codec, ts, 0, env.compression, key, Stored(env.codec, env.compression, TOMBSTONE).0);
  }

  /** The bytes of an ASCII text. */
  function Text(s: string): (b: Bytes)
    requires forall i :: 0 <= i < |s| ==> s[i] as int < 128
    ensures |b| == |s|
  {
    seq(|s|, i requires 0 <= i < |s| => s[i] as int)
  }

  lemma MarkerText()
    ensures TOMBSTONE == Text("__DELETED__")
  {
    var s := "__DELETED__";
    assert |TOMBSTONE| == |s| == 11;
  }

  /** Data of any type but 1, 2 and 3 are taken as they are. */
  lemma DecompressIs(c: Codec, data: Bytes, tag: Byte)
    ensures Decompress(c, data, tag) == if 1 <= tag <= 3 then c.decode(tag, data) else Some(data)
  {
  }

  /** The sizes that readers and writers of one process share. */
  lemma Sizes()
    ensures HEADER_SIZE == 19 && ReadPath.BLOCK == 4096
    ensures BatchRead.BUFFER_SIZE == 256 * 1024 && WalManager.BUFFER_SIZE == 64 * 1024
  {
  }

  // ---- the log ----

  lemma FrameBytes(j: Json, r: Record)
    ensures Frame(j, r) == Big32(|j.marshal(r)|) + j.marshal(r)
  {
    BigFields(|j.marshal(r)|);
  }

  /** The records of a transaction, in literal types: 3 begins, 1 puts, 2 deletes, 4 commits. */
  lemma TransactionRecords(id: TxID, ops: seq<TxOp>, times: seq<nat>)
    requires |times| == |ops| + 2
    ensures var rs := WalManager.TxRecords(id, ops, times);
      && |rs| == |ops| + 2
      && rs[0] == Record(3, times[0], [], [], id)
      && rs[|ops| + 1] == Record(4, times[|ops| + 1], [], [], id)
      && forall i :: 0 <= i < |ops| ==>
           rs[i + 1] == match ops[i]
             case PutOp(key, value) => Record(1, times[i + 1], key, value, id)
             case DeleteOp(key) => Record(2, times[i + 1], key, [], id)
  {
  }

  // ---- the containers ----

  function Flatten(parts: seq<Bytes>): Bytes {
    if parts == [] then [] else parts[0] + Flatten(parts[1..])
  }

  /** Piece number i of the input, cut into pieces of the given size. */
  function Piece(data: Bytes, size: nat, i: nat): Bytes {
    NonNegative(i, size);
    NonNegative(i + 1, size);
    var from, to := Min(i * size, |data|), Min((i + 1) * size, |data|);
    if from <= to then data[from..to] else []
  }

  /** An algorithm from 1 to 3 is applied; any other leaves the data alone. */
  function Packed(c: Codec, algorithm: Byte, data: Bytes): Bytes {
    if 1 <= algorithm <= 3 then c.encode(algorithm, data) else data
  }

  lemma PieceFirst(data: Bytes, size: nat)
    ensures Piece(data, size, 0) == data[..Min(size, |data|)]
  {
  }

  lemma PieceRest(data: Bytes, size: nat, i: nat)
    ensures Piece(data, size, i + 1) == Piece(data[Min(size, |data|)..], size, i)
  {
    OneMore(i + 1, size);
    OneMore(i + 2, size);
  }

  /** The pieces, one after the other, each in its frame. */
  function Frames(frame: Bytes -> Bytes, data: Bytes, size: nat, n: nat): (parts: seq<Bytes>)
    ensures |parts| == n
  {
    seq(n, i requires 0 <= i < n => frame(Piece(data, size, i)))
  }

  lemma FramesNext(frame: Bytes -> Bytes, data: Bytes, size: nat, n: nat)
    requires n > 0
    ensures Flatten(Frames(frame, data, size, n))
         == frame(data[..Min(size, |data|)]) + Flatten(Frames(frame, data[Min(size, |data|)..], size, n - 1))
  {
    var parts, rest := Frames(frame, data, size, n), Frames(frame, data[Min(size, |data|)..], size, n - 1);
    PieceFirst(data, size);
    forall i: nat | i < n - 1 ensures parts[1..][i] == rest[i] {
      PieceRest(data, size, i);
    }
    assert parts[1..] == rest;
  }

  /** Original size, stored size, stored bytes. */
  function SizedPart(c: Codec, algorithm: Byte, piece: Bytes): Bytes {
    Little32(|piece|) + Little32(|Packed(c, algorithm, piece)|) + Packed(c, algorithm, piece)
  }

  lemma SizedPartIs(c: Codec, algorithm: Byte, piece: Bytes)
    ensures SizedFrame(c, algorithm, piece) == SizedPart(c, algorithm, piece)
  {
    LittleFields(|piece|);
    LittleFields(|Encode(c, algorithm, piece)|);
  }

  lemma {:induction false} StreamFrames(c: Codec, a: Byte, data: Bytes, size: nat, n: nat)
    ensures JobFrames(c, true, Jobs(_ => a, data, size, n))
         == Flatten(Frames(piece => SizedPart(c, a, piece), data, size, n))
  {
    hide SizedPart, SizedFrame;
    if n > 0 {
      var m := Min(size, |data|);
      SizedPartIs(c, a, data[..m]);
      StreamFrames(c, a, data[m..], size, n - 1);
      FramesNext(piece => SizedPart(c, a, piece), data, size, n);
    }
  }

  lemma {:induction false} ParallelFrames(c: Codec, pick: Chooser, data: Bytes, size: nat, n: nat)
    ensures JobFrames(c, false, Jobs(pick, data, size, n))
         == Flatten(Frames(piece => [pick(piece)] + SizedPart(c, pick(piece), piece), data, size, n))
  {
    hide SizedPart, SizedFrame;
    if n > 0 {
      var m := Min(size, |data|);
      SizedPartIs(c, pick(data[..m]), data[..m]);
      ParallelFrames(c, pick, data[m..], size, n - 1);
      FramesNext(piece => [pick(piece)] + SizedPart(c, pick(piece), piece), data, size, n);
    }
  }

  /** n pieces of this size reach the end of the input, and fewer do not. */
  predicate Cuts(len: nat, size: nat, n: nat) {
    n * size >= len && (n > 0 ==> (n - 1) * size < len)
  }

  lemma CeilCuts(len: nat, size: nat)
    requires size > 0
    ensures Cuts(len, size, CeilDiv(len, size))
  {
    CeilCovers(len, size);
    var n := CeilDiv(len, size);
    if n > 0 {
      ChunkBounds(len, size, n, n - 1);
    }
  }

  /** The stream container: 3, the number of pieces, the algorithm chosen for the whole input, then each
      piece compressed with it behind its two lengths. */
  lemma StreamBytes(c: Codec, pick: Chooser, data: Bytes, size: nat) returns (n: nat)
    requires size > 0
    ensures Cuts(|data|, size, n)
    ensures CompressedStream(c, pick, data, size)
         == [3] + Little32(n) + [pick(data)] + Flatten(Frames(piece => SizedPart(c, pick(data), piece), data, size, n))
  {
    n := CeilDiv(|data|, size);
    CeilCuts(|data|, size);
    LittleFields(n);
    StreamFrames(c, pick(data), data, size, n);
    SameJobs(_ => pick(data), _ => pick(data), data, size, n);
  }

  lemma {:induction false} SameJobs(f: Chooser, g: Chooser, data: Bytes, size: nat, n: nat)
    requires forall d: Bytes :: f(d) == g(d)
    ensures Jobs(f, data, size, n) == Jobs(g, data, size, n)
  {
    if n > 0 {
      SameJobs(f, g, data[Min(size, |data|)..], size, n - 1);
    }
  }

  /** The parallel container: 2, the number of pieces, then each piece behind the algorithm chosen for it
      and its two lengths. The pieces have the configured size, 262144 by default; if that makes more
      than `most`, there are `most` pieces of the rounded-down size. */
  lemma ParallelBytes(c: Codec, pick: Chooser, data: Bytes, configured: int, most: nat) returns (size: nat, n: nat)
    requires most > 0
    ensures var wanted := if configured <= 0 then 262144 else configured;
      if wanted * most >= |data| then size == wanted && Cuts(|data|, size, n)
      else n == most && size * most <= |data| < (size + 1) * most
    ensures CompressedParallel(c, pick, data, configured, most)
         == [2] + Little32(n)
            + Flatten(Frames(piece => [pick(piece)] + SizedPart(c, pick(piece), piece), data, size, n))
  {
    var plan := ParallelPlan(|data|, configured, most);
    size, n := plan.size, plan.chunks;
    PlanCuts(|data|, configured, most);
    LittleFields(n);
    ParallelFrames(c, pick, data, size, n);
  }

  lemma PlanCuts(len: nat, configured: int, most: nat)
    requires most > 0
    ensures var wanted, p := if configured <= 0 then 262144 else configured, ParallelPlan(len, configured, most);
      if wanted * most >= len then p.size == wanted && Cuts(len, p.size, p.chunks)
      else p.chunks == most && p.size * most <= len < (p.size + 1) * most
  {
    var wanted := ParallelChunk(configured);
    var n := CeilDiv(len, wanted);
    CeilCuts(len, wanted);
    if n > most {
      FewerReachLess(wanted, most, n - 1);
      Quotient(len, most);
    } else {
      FewerReachLess(wanted, n, most);
    }
    Commutes(wanted, most);
  }

  lemma Commutes(a: nat, b: nat)
    ensures a * b == b * a
  {
  }

  lemma FewerReachLess(size: nat, a: nat, b: nat)
    requires a <= b
    ensures a * size <= b * size
  {
  }

  lemma Quotient(len: nat, most: nat)
    requires most > 0
    ensures len / most * most <= len < (len / most + 1) * most
  {
    var q := len / most;
    assert len == most * q + len % most;
    assert (q + 1) * most == most * q + most;
  }

  /** The mixed container: 1, then each piece behind the digit of the algorithm chosen for it and the
      decimal length of what is stored, each followed by a colon. */
  lemma MixedBytes(c: Codec, pick: Chooser, data: Bytes, configured: int) returns (size: nat, n: nat)
    requires Plain(pick)
    ensures size == (if configured <= 0 then 65536 else configured) && Cuts(|data|, size, n)
    ensures Compressed(c, pick, data, configured)
         == [1] + Flatten(Frames(piece => MixedPart(c, pick(piece), piece), data, size, n))
  {
    size := ChunkSize(configured);
    n := CeilDiv(|data|, size);
    CeilCuts(|data|, size);
    MixedFrames(c, pick, data, size, n);
  }

  function MixedPart(c: Codec, algorithm: Byte, piece: Bytes): Bytes
  {
    var z := Packed(c, algorithm, piece);
    (if algorithm <= 9 then [48 + algorithm] else []) + [58] + Print(|z|) + [58] + z
  }

  lemma {:induction false} MixedFrames(c: Codec, pick: Chooser, data: Bytes, size: nat, n: nat)
    requires Plain(pick) && size > 0 && Cuts(|data|, size, n)
    ensures ChunkFrames(c, pick, data, size)
         == Flatten(Frames(piece => MixedPart(c, pick(piece), piece), data, size, n))
  {
    hide MixedPart, ChunkFrame;
    if data == [] {
      NoPieces(size, n);
      assert Frames(piece => MixedPart(c, pick(piece), piece), data, size, n) == [];
    } else {
      var m := Min(size, |data|);
      SomePieces(|data|, size, n);
      MixedPartIs(c, pick(data[..m]), data[..m]);
      MixedFrames(c, pick, data[m..], size, n - 1);
      FramesNext(piece => MixedPart(c, pick(piece), piece), data, size, n);
    }
  }

  lemma MixedPartIs(c: Codec, algorithm: Byte, piece: Bytes)
    requires algorithm <= 3
    ensures ChunkFrame(c, algorithm, piece) == MixedPart(c, algorithm, piece)
  {
    AlgorithmPrinted(algorithm);
  }

  lemma NoPieces(size: nat, n: nat)
    requires size > 0 && Cuts(0, size, n)
    ensures n == 0
  {
    if n > 0 {
      NonNegative(n - 1, size);
    }
  }

  lemma SomePieces(len: nat, size: nat, n: nat)
    requires len > 0 && size > 0 && Cuts(len, size, n)
    ensures n > 0 && Cuts(len - Min(size, len), size, n - 1)
  {
    if n > 0 {
      OneMore(n, size);
      if n > 1 {
        OneMore(n - 1, size);
        FewerReachLess(size, 1, n - 1);
      }
    }
  }
}
