/** The on-disk entry of entry.go: a 19-byte header, the key, the value. */
module Entry {
  import opened Bytes
  import opened Codec
  import opened Framing

  const HEADER_SIZE := 19

  datatype Entry = Entry(
    crc: U32,
    timestamp: U32,
    ttl: U32,
    keySize: U16,
    valueSize: U32,
    compression: Byte,
    key: Bytes,
    value: Bytes)

  predicate Sized(e: Entry) {
    e.keySize == |e.key| && e.valueSize == |e.value|
  }

  function Size(e: Entry): nat {
    HEADER_SIZE + e.keySize + e.valueSize
  }

  function Header(e: Entry): (h: Bytes)
    ensures |h| == HEADER_SIZE
  {
    BE(e.crc, 4) + BE(e.timestamp, 4) + BE(e.ttl, 4) + BE(e.keySize, 2) + BE(e.valueSize, 4) + [e.compression]
  }

  function Serialize(e: Entry): (b: Bytes)
    ensures |b| == Size(e)
  {
    Header(e) + Fit(e.key, e.keySize) + Fit(e.value, e.valueSize)
  }

  /** The bytes the checksum covers: everything but the checksum itself. */
  function CrcInput(e: Entry): Bytes {
    BE(e.timestamp, 4) + BE(e.ttl, 4) + BE(e.keySize, 2) + BE(e.valueSize, 4) + [e.compression] + e.key + e.value
  }

  predicate VerifyCRC(c: Codec, e: Entry) {
    c.crc(CrcInput(e)) == e.crc
  }

  /** How every writer builds an entry: sizes truncated to their field width, checksum last. */
  function Seal(c: Codec, timestamp: U32, ttl: U32, compression: Byte, key: Bytes, value: Bytes): Entry {
    var e := Entry(0, timestamp, ttl, |key| % TWO16, |value| % TWO32, compression, key, value);
    e.(crc := c.crc(CrcInput(e)))
  }

  lemma SealVerifies(c: Codec, timestamp: U32, ttl: U32, compression: Byte, key: Bytes, value: Bytes)
    ensures VerifyCRC(c, Seal(c, timestamp, ttl, compression, key, value))
  {
    var e := Entry(0, timestamp, ttl, |key| % TWO16, |value| % TWO32, compression, key, value);
    assert CrcInput(Seal(c, timestamp, ttl, compression, key, value)) == CrcInput(e);
  }

  /** The entry a file holds after `e` was written: key and value fitted to their sizes. */
  function Stored(e: Entry): (s: Entry)
    ensures Sized(s) && Size(s) == Size(e)
    ensures Sized(e) ==> s == e
  {
    e.(key := Fit(e.key, e.keySize), value := Fit(e.value, e.valueSize))
  }

  // ---- reading ----

  /** The fields of a header; key and value still unread. */
  function ParseHeader(h: Bytes): Entry
    requires |h| == HEADER_SIZE
  {
    Pow256Widths();
    Entry(FromBE(h[0..4]), FromBE(h[4..8]), FromBE(h[8..12]), FromBE(h[12..14]), FromBE(h[14..18]), h[18], [], [])
  }

  function ReadEntry(r: Bytes): (o: Outcome<Entry>)
    ensures o.Got? ==> Sized(o.item) && Size(o.item) == o.size <= |r|
    ensures r == [] ==> o == EOF
  {
    if r == [] then EOF
    else if |r| < HEADER_SIZE then UnexpectedEOF
    else ReadBody(ParseHeader(r[..HEADER_SIZE]), r[HEADER_SIZE..])
  }

  function ReadBody(h: Entry, r: Bytes): (o: Outcome<Entry>)
    ensures o.Got? ==> Sized(o.item) && Size(o.item) == Size(h) == o.size <= HEADER_SIZE + |r|
  {
    var ks, vs := h.keySize, h.valueSize;
    if |r| < ks then (if r == [] then EOF else UnexpectedEOF)
    else if |r| < ks + vs then (if |r| == ks then EOF else UnexpectedEOF)
    else Got(h.(key := r[..ks], value := r[ks..ks + vs]), Size(h))
  }

  /** Where each field is in the 19 bytes. */
  lemma HeaderLayout(e: Entry)
    ensures var h := Header(e);
      && h[0..4] == BE(e.crc, 4) && h[4..8] == BE(e.timestamp, 4) && h[8..12] == BE(e.ttl, 4)
      && h[12..14] == BE(e.keySize, 2) && h[14..18] == BE(e.valueSize, 4) && h[18] == e.compression
  {
    hide BE;
  }

  /** The checksum covers exactly the stored bytes behind it. */
  lemma CrcCoversTheRest(e: Entry)
    requires Sized(e)
    ensures CrcInput(e) == Serialize(e)[4..]
  {
    hide BE;
  }

  lemma ParseSerializedHeader(e: Entry)
    ensures ParseHeader(Header(e)) == e.(key := [], value := [])
  {
    Pow256Widths();
    HeaderLayout(e);
    BERoundTrip(e.crc, 4);
    BERoundTrip(e.timestamp, 4);
    BERoundTrip(e.ttl, 4);
    BERoundTrip(e.keySize, 2);
    BERoundTrip(e.valueSize, 4);
  }

  /** Reading what `Serialize` wrote gives the entry back, with key and value cut (or
      zero-padded) to the header's sizes, whatever follows. */
  lemma ReadSerialized(e: Entry, tail: Bytes)
    ensures ReadEntry(Serialize(e) + tail) == Got(Stored(e), Size(e))
  {
    var k, v := Fit(e.key, e.keySize), Fit(e.value, e.valueSize);
    var r := Serialize(e) + tail;
    ParseSerializedHeader(e);
    assert r[..HEADER_SIZE] == Header(e);
    var body := r[HEADER_SIZE..];
    assert body == k + v + tail;
    assert body[..|k|] == k;
    assert body[|k|..|k| + |v|] == v;
  }

  lemma ReadPrefix(b: Bytes, tail: Bytes)
    requires ReadEntry(b).Got?
    ensures ReadEntry(b + tail) == ReadEntry(b)
  {
    var h := ParseHeader(b[..HEADER_SIZE]);
    var r, r' := b[HEADER_SIZE..], (b + tail)[HEADER_SIZE..];
    assert (b + tail)[..HEADER_SIZE] == b[..HEADER_SIZE];
    assert r' == r + tail;
    assert r'[..h.keySize] == r[..h.keySize];
    assert r'[h.keySize..h.keySize + h.valueSize] == r[h.keySize..h.keySize + h.valueSize];
  }

  lemma ReadEntryStable()
    ensures Stable(ReadEntry)
  {
    forall b: Bytes, tail: Bytes | ReadEntry(b).Got?
      ensures ReadEntry(b + tail) == ReadEntry(b)
    {
      ReadPrefix(b, tail);
    }
  }

  /** A cut short of one entry's end is never read as an entry. */
  lemma CutIsNotRead(e: Entry, n: nat)
    requires n < Size(e)
    ensures !ReadEntry(Serialize(e)[..n]).Got?
  {
    if n >= HEADER_SIZE {
      ParseSerializedHeader(e);
      assert Serialize(e)[..n][..HEADER_SIZE] == Header(e);
    }
  }

  /** All entries `processFile` reads, with their offsets. */
  function ScanFile(b: Bytes): seq<Located<Entry>> {
    Scan(ReadEntry, b, 0, [])
  }

  /** The entries read once the reading of `r`, at offset `off`, is added to `done`. */
  function ScanFrom(r: Bytes, off: nat, done: seq<Located<Entry>>): seq<Located<Entry>> {
    Scan(ReadEntry, r, off, done)
  }

  /** One turn of the read loop. */
  lemma ScanEntry(r: Bytes, off: nat, done: seq<Located<Entry>>)
    ensures var o := ReadEntry(r);
      ScanFrom(r, off, done) ==
        if o.Got? then ScanFrom(r[o.size..], off + o.size, done + [Located(off, o.item)]) else done
  {
    ScanNext(ReadEntry, r, off, done);
  }

  /** The file is whole entries end to end. */
  predicate Whole(b: Bytes) {
    Tiled(ReadEntry, b)
  }

  /** Appending one serialized entry to a whole file adds exactly that entry, at the old length. */
  lemma AppendEntry(b: Bytes, e: Entry)
    requires Whole(b)
    ensures ScanFile(b + Serialize(e)) == ScanFile(b) + [Located(|b|, Stored(e))]
    ensures Whole(b + Serialize(e))
  {
    ReadEntryStable();
    ReadSerialized(e, []);
    assert Serialize(e) + [] == Serialize(e);
    ScanAppend(ReadEntry, b, Serialize(e), Stored(e));
  }

  lemma EntryWrites(e: Entry)
    requires Sized(e)
    ensures Writes(ReadEntry, Serialize, e)
  {
    forall tail: Bytes ensures ReadEntry(Serialize(e) + tail) == Got(e, |Serialize(e)|) {
      ReadSerialized(e, tail);
    }
    forall k: nat | k < |Serialize(e)| ensures !ReadEntry(Serialize(e)[..k]).Got? {
      CutIsNotRead(e, k);
    }
  }

  /** Torn tail: cut a file of serialized entries at any byte, and the scan finds exactly
      the longest prefix of whole entries, each at its true offset. */
  lemma TornTail(es: seq<Entry>, n: nat)
    requires forall e :: e in es ==> Sized(e)
    requires n <= |WriteAll(Serialize, es)|
    ensures var m := WholeWithin(Serialize, es, n);
      && ScanFile(WriteAll(Serialize, es)[..n]) == Layout(Serialize, es[..m], 0, [])
      && |WriteAll(Serialize, es[..m])| <= n
      && (m < |es| ==> n < |WriteAll(Serialize, es[..m + 1])|)
  {
    hide Scan, Layout, WholeWithin, WriteAll, ReadEntry, Serialize, Writes;
    ReadEntryStable();
    forall e | e in es ensures Writes(ReadEntry, Serialize, e) {
      EntryWrites(e);
    }
    ScanTorn(ReadEntry, Serialize, es, n, 0, []);
    WholeWithinIsLongest(Serialize, es, n);
  }

  // ---- the byte-array writer ----

  lemma FitIs(src: Bytes, n: nat, b: Bytes)
    requires |b| == n && forall i :: 0 <= i < n ==> b[i] == if i < |src| then src[i] else 0
    ensures b == Fit(src, n)
  {
  }

  /** Go's `copy(buf[at:at+room], src)`. */
  method CopyInto(buf: array<Byte>, at: nat, room: nat, src: Bytes)
    requires at + room <= buf.Length
    requires forall j :: at <= j < buf.Length ==> buf[j] == 0
    modifies buf
    ensures buf[..at + room] == old(buf[..at]) + Fit(src, room)
    ensures forall j :: at + room <= j < buf.Length ==> buf[j] == 0
  {
    var n := if room <= |src| then room else |src|;
    var i := 0;
    while i < n
      invariant 0 <= i <= n
      invariant buf[..at] == old(buf[..at])
      invariant forall k :: 0 <= k < i ==> buf[at + k] == src[k]
      invariant forall j :: at + i <= j < buf.Length ==> buf[j] == 0
    {
      buf[at + i] := src[i];
      i := i + 1;
    }
    forall k | 0 <= k < room ensures buf[at..at + room][k] == if k < |src| then src[k] else 0 {
      assert buf[at..at + room][k] == buf[at + k];
    }
    FitIs(src, room, buf[at..at + room]);
    assert buf[..at + room] == buf[..at] + buf[at..at + room];
  }

  method SerializeEntry(e: Entry) returns (buf: array<Byte>)
    ensures fresh(buf) && buf[..] == Serialize(e)
  {
    hide BE, Fit;
    buf := new Byte[Size(e)](_ => 0);
    CopyInto(buf, 0, 4, BE(e.crc, 4));
    assert buf[..4] == BE(e.crc, 4);
    CopyInto(buf, 4, 4, BE(e.timestamp, 4));
    CopyInto(buf, 8, 4, BE(e.ttl, 4));
    CopyInto(buf, 12, 2, BE(e.keySize, 2));
    CopyInto(buf, 14, 4, BE(e.valueSize, 4));
    CopyInto(buf, 18, 1, [e.compression]);
    assert buf[..HEADER_SIZE] == Header(e);
    CopyInto(buf, HEADER_SIZE, e.keySize, e.key);
    CopyInto(buf, HEADER_SIZE + e.keySize, e.valueSize, e.value);
    assert buf[..] == buf[..Size(e)];
  }
}
