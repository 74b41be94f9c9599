/** The compression tag contract of entry.go. The algorithms themselves (snappy, zstd,
    gzip, CRC-32) are parameters; only their round trip is assumed, by `Lawful`. */
module Codec {
  import opened Bytes

  const NO_COMPRESSION: Byte := 0
  const SNAPPY: Byte := 1
  const ZSTD: Byte := 2
  const GZIP: Byte := 3
  const MIXED: Byte := 4
  const PARALLEL: Byte := 5
  const STREAM: Byte := 6

  /** "__DELETED__" */
  const TOMBSTONE: Bytes := [95, 95, 68, 69, 76, 69, 84, 69, 68, 95, 95]

  datatype Codec = Codec(
    encode: (Byte, Bytes) -> Bytes,
    decode: (Byte, Bytes) -> Option<Bytes>,
    crc: Bytes -> U32)

  predicate Compressing(ct: Byte) {
    SNAPPY <= ct <= GZIP
  }

  ghost predicate Lawful(c: Codec) {
    forall a: Byte, d: Bytes :: Compressing(a) ==> c.decode(a, c.encode(a, d)) == Some(d)
  }

  /** `compressWithAlgorithm`: an unknown algorithm leaves the data alone, as `Decompress` does. */
  function Encode(c: Codec, algorithm: Byte, data: Bytes): Bytes {
    if Compressing(algorithm) then c.encode(algorithm, data) else data
  }

  /** Compression with the smart compressor off; `configured` is the database's setting. */
  function Compress(c: Codec, configured: Byte, data: Bytes): (Bytes, Byte) {
    if data == [] || configured == NO_COMPRESSION then (data, NO_COMPRESSION)
    else if Compressing(configured) then (c.encode(configured, data), configured)
    else (data, NO_COMPRESSION)
  }

  function Decompress(c: Codec, data: Bytes, ct: Byte): Option<Bytes> {
    if Compressing(ct) then c.decode(ct, data) else Some(data)
  }

  /** The tag `Compress` returns undoes it. */
  lemma CompressRoundTrip(c: Codec, configured: Byte, data: Bytes)
    requires Lawful(c)
    ensures var (z, ct) := Compress(c, configured, data); Decompress(c, z, ct) == Some(data)
  {
  }

  /** A tombstone carries the configured type rather than the one `Compress` returned,
      and still decodes to the marker. */
  lemma TombstoneDecodes(c: Codec, configured: Byte)
    requires Lawful(c)
    ensures Decompress(c, Compress(c, configured, TOMBSTONE).0, configured) == Some(TOMBSTONE)
  {
    assert TOMBSTONE[0] == 95;
  }
}
