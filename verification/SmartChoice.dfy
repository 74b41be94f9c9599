/** The smart compressor of smart_compression.go: whichever path it takes, and whatever its cache
    has been through, the tag it returns names a decoder that gives the input back. */
module SmartChoice {
  import opened Bytes
  import opened Codec
  import opened Decimal
  import opened MixedMode
  import opened ChunkedModes
  import opened ChunkWorkers

  datatype Config = Config(
    enableCache: bool,
    enableMixedMode: bool,
    enableParallel: bool,
    enableStreaming: bool,
    chunkSize: int,
    maxParallelism: int,
    cpus: nat,
    cacheSize: int)

  function MaxChunks(cfg: Config): nat {
    if cfg.maxParallelism <= 0 then cfg.cpus else cfg.maxParallelism
  }

  /** The decoder a compression type names. */
  function DecodeTagged(c: Codec, z: Bytes, tag: Byte): Decoded {
    if tag == MIXED then Decompressed(c, z)
    else if tag == PARALLEL then DecompressedParallel(c, z)
    else if tag == STREAM then DecompressedStream(c, z)
    else match Decompress(c, z, tag)
      case Some(data) => Decoded(data)
      case None => Invalid
  }

  /** Workers to spare, and a chunk size to stream by. */
  predicate ConfigOk(cfg: Config) {
    cfg.cpus > 0 && (cfg.enableStreaming ==> cfg.chunkSize > 0)
  }

  /** The lengths written into each container fit their fields. */
  ghost predicate Fits(c: Codec, pick: Chooser, cfg: Config, data: Bytes) {
    Fits32(c, data) && |Compressed(c, pick, data, cfg.chunkSize)| <= MAX_INT
  }

  /** When the parallel form loses nothing. */
  predicate ParallelCovers(cfg: Config, len: nat)
    requires cfg.cpus > 0
  {
    CeilDiv(len, ParallelChunk(cfg.chunkSize)) <= MaxChunks(cfg) || len % MaxChunks(cfg) == 0
  }

  // ---- one lemma per path ----

  lemma PlainPath(c: Codec, algorithm: Byte, data: Bytes)
    requires Lawful(c) && algorithm <= GZIP
    ensures DecodeTagged(c, Encode(c, algorithm, data), algorithm) == Decoded(data)
  {
  }

  lemma RawPath(c: Codec, data: Bytes)
    ensures DecodeTagged(c, data, NO_COMPRESSION) == Decoded(data)
  {
  }

  lemma MixedPath(c: Codec, pick: Chooser, cfg: Config, data: Bytes)
    requires Lawful(c) && Plain(pick) && ConfigOk(cfg) && Fits(c, pick, cfg, data)
    ensures DecodeTagged(c, Compressed(c, pick, data, cfg.chunkSize), MIXED) == Decoded(data)
  {
    hide Compressed, Decompressed, CompressedParallel, CompressedStream;
    MixedRoundTrip(c, pick, data, cfg.chunkSize);
  }

  lemma ParallelPath(c: Codec, pick: Chooser, cfg: Config, data: Bytes)
    requires Lawful(c) && ConfigOk(cfg) && Fits(c, pick, cfg, data)
    ensures DecodeTagged(c, CompressedParallel(c, pick, data, cfg.chunkSize, MaxChunks(cfg)), PARALLEL) == Decoded(data)
      <==> ParallelCovers(cfg, |data|)
  {
    hide CompressedParallel, DecompressedParallel, Compressed, CompressedStream, CeilDiv;
    ParallelRoundTripIff(c, pick, data, cfg.chunkSize, MaxChunks(cfg));
  }

  lemma StreamPath(c: Codec, pick: Chooser, cfg: Config, data: Bytes)
    requires Lawful(c) && ConfigOk(cfg) && Fits(c, pick, cfg, data) && cfg.chunkSize > 0
    ensures DecodeTagged(c, CompressedStream(c, pick, data, cfg.chunkSize), STREAM) == Decoded(data)
  {
    hide CompressedParallel, Compressed, CompressedStream, DecompressedStream;
    StreamRoundTrip(c, pick, data, cfg.chunkSize);
  }

  // ---- the cache ----

  datatype CacheEntry = CacheEntry(data: Bytes, algorithm: Byte, timestamp: int)

  /** Every cached result decodes, by its tag, to the data it is cached under; only plainly
      compressed results are cached. */
  ghost predicate Sound(c: Codec, cache: map<Bytes, CacheEntry>) {
    forall k :: k in cache
        ==> cache[k].algorithm <= GZIP && DecodeTagged(c, cache[k].data, cache[k].algorithm) == Decoded(k)
  }

  /** No key is older than this one. */
  ghost predicate Oldest(cache: map<Bytes, CacheEntry>, key: Bytes) {
    key in cache && forall k :: k in cache ==> cache[key].timestamp <= cache[k].timestamp
  }

  // ---- the eviction scan ----

  /** The oldest key so far and its time; the empty key doubles as "none yet". */
  datatype Scan = Scan(key: Bytes, time: int)

  function Scanned(cache: map<Bytes, CacheEntry>, order: seq<Bytes>): Scan
    requires forall k :: k in order ==> k in cache
  {
    if order == [] then Scan([], 0)
    else
      assert order[|order| - 1] in order;
      var before, k := Scanned(cache, order[..|order| - 1]), order[|order| - 1];
      if before.key == [] || cache[k].timestamp < before.time then Scan(k, cache[k].timestamp) else before
  }

  /** The key that a scan of the map in this order evicts. */
  function Victim(cache: map<Bytes, CacheEntry>, order: seq<Bytes>): Bytes
    requires forall k :: k in order ==> k in cache
  {
    Scanned(cache, order).key
  }

  lemma {:induction false} ScanIsKey(cache: map<Bytes, CacheEntry>, order: seq<Bytes>)
    requires order != [] && forall k :: k in order ==> k in cache
    ensures var s := Scanned(cache, order); s.key in order && s.time == cache[s.key].timestamp
  {
    var init, last := order[..|order| - 1], order[|order| - 1];
    assert order == init + [last];
    if init != [] {
      ScanIsKey(cache, init);
    }
  }

  /** Without the empty key, it is the first of the oldest on the way. */
  lemma {:induction false} VictimIsFirstOldest(cache: map<Bytes, CacheEntry>, order: seq<Bytes>) returns (i: nat)
    requires order != [] && (forall k :: k in order ==> k in cache) && [] !in order
    ensures i < |order| && Victim(cache, order) == order[i]
    ensures forall j :: 0 <= j < |order| ==>
      if j < i then cache[order[i]].timestamp < cache[order[j]].timestamp
      else cache[order[i]].timestamp <= cache[order[j]].timestamp
  {
    var n := |order| - 1;
    var init := order[..n];
    assert order == init + [order[n]];
    ScanIsKey(cache, order);
    if init == [] {
      return 0;
    }
    ScanIsKey(cache, init);
    i := VictimIsFirstOldest(cache, init);
    if cache[order[n]].timestamp < cache[order[i]].timestamp {
      i := n;
    }
  }

  /** A key no younger than the empty one stops the scan from settling on anything younger. */
  lemma {:induction false} ScanReaches(cache: map<Bytes, CacheEntry>, order: seq<Bytes>, k: Bytes)
    requires (forall j :: j in order ==> j in cache) && k in order && k != []
    requires [] in order ==> cache[k].timestamp <= cache[[]].timestamp
    ensures Scanned(cache, order).key != [] && Scanned(cache, order).time <= cache[k].timestamp
  {
    var init, last := order[..|order| - 1], order[|order| - 1];
    assert order == init + [last];
    if k in init {
      ScanReaches(cache, init, k);
    } else if init != [] {
      ScanIsKey(cache, init);
    }
  }

  /** Visited first, the empty key is forgotten at once. */
  lemma {:induction false} FirstForgotten(cache: map<Bytes, CacheEntry>, order: seq<Bytes>)
    requires (forall k :: k in order ==> k in cache) && |order| > 1
    requires order[0] == [] && forall i :: 0 < i < |order| ==> order[i] != []
    ensures Victim(cache, order) != []
  {
    var init := order[..|order| - 1];
    if |order| > 2 {
      FirstForgotten(cache, init);
    } else {
      assert init[..0] == [] && Scanned(cache, init).key == [];
    }
  }

  /** The empty key is cached, is not alone, and is older than all others. */
  ghost predicate EmptyKeyOldest(cache: map<Bytes, CacheEntry>) {
    [] in cache && cache.Keys != {[]} && forall k :: k in cache && k != [] ==> cache[[]].timestamp < cache[k].timestamp
  }

  /** In every map order the evicted entry is an oldest one, if and only if the empty key is not the
      single oldest of several. */
  lemma EvictsOldestIff(cache: map<Bytes, CacheEntry>)
    requires cache != map[]
    ensures (forall order :: OrderOf(order, cache.Keys) ==> Oldest(cache, Victim(cache, order)))
        <==> !EmptyKeyOldest(cache)
  {
    if EmptyKeyOldest(cache) {
      var others := AnyOrder(cache.Keys - {[]});
      var order := [[]] + others;
      assert OrderOf(order, cache.Keys) && |order| > 1 by {
        assert exists k :: k in cache && k != [];
      }
      assert forall i :: 0 < i < |order| ==> order[i] == others[i - 1] && order[i] in others;
      FirstForgotten(cache, order);
      ScanIsKey(cache, order);
      assert !Oldest(cache, Victim(cache, order));
    } else {
      forall order | OrderOf(order, cache.Keys) ensures Oldest(cache, Victim(cache, order)) {
        VictimOldest(cache, order);
      }
    }
  }

  lemma VictimOldest(cache: map<Bytes, CacheEntry>, order: seq<Bytes>)
    requires cache != map[] && OrderOf(order, cache.Keys) && !EmptyKeyOldest(cache)
    ensures Oldest(cache, Victim(cache, order))
  {
    var first :| first in cache;
    assert first in order;
    ScanIsKey(cache, order);
    var time := Scanned(cache, order).time;
    if [] in cache && cache.Keys != {[]} {
      var m :| m in cache && m != [] && cache[m].timestamp <= cache[[]].timestamp;
      ScanReaches(cache, order, m);
    }
    forall k | k in cache ensures time <= cache[k].timestamp {
      if k != [] && ([] in cache ==> cache[k].timestamp <= cache[[]].timestamp) {
        ScanReaches(cache, order, k);
      }
    }
  }

  /** The cache after an entry is stored: when it was full, the scan's victim went first. */
  ghost predicate Remembers(before: map<Bytes, CacheEntry>, after: map<Bytes, CacheEntry>, size: nat,
                            key: Bytes, entry: CacheEntry) {
    if |before| < size then after == before[key := entry]
    else exists order :: OrderOf(order, before.Keys) && after == (before - {Victim(before, order)})[key := entry]
  }

  lemma SoundKept(c: Codec, before: map<Bytes, CacheEntry>, after: map<Bytes, CacheEntry>, size: nat, key: Bytes,
                  entry: CacheEntry)
    requires Sound(c, before) && Remembers(before, after, size, key, entry)
    requires entry.algorithm <= GZIP && DecodeTagged(c, entry.data, entry.algorithm) == Decoded(key)
    ensures Sound(c, after)
  {
    hide DecodeTagged, Victim, OrderOf;
  }

  class CompressionCache {
    var cache: map<Bytes, CacheEntry>
    const size: nat

    ghost predicate Valid()
      reads this
    {
      size > 0 && |cache| <= size
    }

    constructor (size: int)
      ensures Valid() && cache == map[] && this.size == if size <= 0 then 1000 else size
    {
      this.cache := map[];
      this.size := if size <= 0 then 1000 else size;
    }

    method Get(key: Bytes) returns (hit: bool, data: Bytes, algorithm: Byte)
      ensures hit <==> key in cache
      ensures hit ==> data == cache[key].data && algorithm == cache[key].algorithm
    {
      if key in cache {
        return true, cache[key].data, cache[key].algorithm;
      }
      return false, [], NO_COMPRESSION;
    }

    /** The eviction scan, in whatever order the map is iterated. */
    method FindOldest() returns (oldestKey: Bytes, ghost order: seq<Bytes>)
      requires cache != map[]
      ensures OrderOf(order, cache.Keys) && oldestKey == Victim(cache, order)
      ensures oldestKey in cache
    {
      oldestKey, order := [], [];
      var oldestTime, left := 0, cache.Keys;
      while left != {}
        invariant left <= cache.Keys && OrderOf(order, cache.Keys - left)
        invariant Scanned(cache, order) == Scan(oldestKey, oldestTime)
        decreases left
      {
        var k :| k in left;
        assert (order + [k])[..|order|] == order;
        if oldestKey == [] || cache[k].timestamp < oldestTime {
          oldestKey, oldestTime := k, cache[k].timestamp;
        }
        left, order := left - {k}, order + [k];
      }
      ScanIsKey(cache, order);
    }

    /** When the cache is full, even of a key that is already there, one victim goes first. */
    method Set(key: Bytes, data: Bytes, algorithm: Byte, now: int) returns (ghost order: seq<Bytes>)
      requires Valid()
      modifies this
      ensures Valid()
      ensures |old(cache)| < size ==> cache == old(cache)[key := CacheEntry(data, algorithm, now)]
      ensures |old(cache)| >= size ==>
        && OrderOf(order, old(cache).Keys)
        && cache == (old(cache) - {Victim(old(cache), order)})[key := CacheEntry(data, algorithm, now)]
      ensures Remembers(old(cache), cache, size, key, CacheEntry(data, algorithm, now))
    {
      ghost var before := cache;
      order := [];
      if |cache| >= size {
        assert cache != map[];
        var victim;
        victim, order := FindOldest();
        cache := cache - {victim};
        assert cache.Keys == before.Keys - {victim};
        assert |cache.Keys| == |before.Keys| - 1;
      }
      assert (cache[key := CacheEntry(data, algorithm, now)]).Keys == cache.Keys + {key};
      cache := cache[key := CacheEntry(data, algorithm, now)];
    }
  }

  // ---- the compressor ----

  class SmartCompressor {
    const codec: Codec
    const config: Config
    const pick: Chooser
    const cache: CompressionCache

    ghost predicate Valid()
      reads this, cache
    {
      Lawful(codec) && Plain(pick) && ConfigOk(config) && cache.Valid() && Sound(codec, cache.cache)
    }

    constructor (codec: Codec, config: Config, pick: Chooser)
      requires Lawful(codec) && Plain(pick) && ConfigOk(config)
      ensures Valid() && fresh(cache)
      ensures this.codec == codec && this.config == config && this.pick == pick
    {
      this.codec, this.config, this.pick := codec, config, pick;
      this.cache := new CompressionCache(config.cacheSize);
    }

    /** With the cache on, the result is stored under its input. */
    method Remember(data: Bytes, z: Bytes, tag: Byte, now: int)
      requires Valid() && tag <= GZIP && DecodeTagged(codec, z, tag) == Decoded(data)
      modifies cache
      ensures Valid()
      ensures config.enableCache ==> Remembers(old(cache.cache), cache.cache, cache.size, data, CacheEntry(z, tag, now))
      ensures !config.enableCache ==> cache.cache == old(cache.cache)
    {
      hide DecodeTagged, Sound, Remembers, Victim, OrderOf;
      ghost var before := cache.cache;
      if config.enableCache {
        ghost var order := cache.Set(data, z, tag, now);
        SoundKept(codec, before, cache.cache, cache.size, data, CacheEntry(z, tag, now));
      }
    }

    /** A result for this input is cached. */
    predicate Hit(data: Bytes)
      reads cache
    {
      config.enableCache && data in cache.cache
    }

    /** The container for inputs longer than a chunk, in the order of preference: 4 mixed, 5 parallel,
        6 stream, 0 none. */
    function Container(data: Bytes): Byte {
      if |data| <= config.chunkSize then 0
      else if config.enableMixedMode then 4
      else if config.enableParallel then 5
      else if config.enableStreaming then 6
      else 0
    }

    /** Whether to compress at all and whether the gain was enough are floating-point judgements;
        they are left open as `worthwhile` and `gained`. A hit returns what is cached. An input not worth
        it comes back as it is; a long one in its container, neither being cached; any other compressed
        with the algorithm chosen for it if that gained enough, else as it is. What was decided without
        a container is cached. In every run, with every cache hit and eviction, the result decoded by its
        tag is the input; the parallel path alone needs its coverage condition, and it is then needed
        exactly. */
    method CompressWithSmartChoice(data: Bytes, worthwhile: bool, gained: bool, now: int) returns (z: Bytes, tag: Byte)
      requires Valid() && Fits(codec, pick, config, data)
      modifies cache
      ensures Valid()
      ensures DecodeTagged(codec, z, tag) == Decoded(data) <==> (tag == PARALLEL ==> ParallelCovers(config, |data|))
      ensures old(Hit(data)) ==>
        && z == old(cache.cache)[data].data && tag == old(cache.cache)[data].algorithm
        && cache.cache == old(cache.cache)
      ensures !old(Hit(data)) && !worthwhile ==> z == data && tag == 0
      ensures !old(Hit(data)) && worthwhile && Container(data) == 0 ==>
        if gained then z == Encode(codec, pick(data), data) && tag == pick(data) else z == data && tag == 0
      ensures !old(Hit(data)) && worthwhile && Container(data) != 0 ==>
        && tag == Container(data) && cache.cache == old(cache.cache)
        && (tag == 4 ==> z == Compressed(codec, pick, data, config.chunkSize))
        && (tag == 5 ==>
          var most := if config.maxParallelism <= 0 then config.cpus else config.maxParallelism;
          z == CompressedParallel(codec, pick, data, config.chunkSize, most))
        && (tag == 6 ==> z == CompressedStream(codec, pick, data, config.chunkSize))
      ensures !old(Hit(data)) && (!worthwhile || Container(data) == 0) ==>
        if config.enableCache then Remembers(old(cache.cache), cache.cache, cache.size, data, CacheEntry(z, tag, now))
        else cache.cache == old(cache.cache)
    {
      hide DecodeTagged, ParallelCovers, Encode, Compressed, CompressedParallel, CompressedStream;
      if config.enableCache {
        var hit, cached, algorithm := cache.Get(data);
        if hit {
          return cached, algorithm;
        }
      }
      if !worthwhile {
        RawPath(codec, data);
        Remember(data, data, NO_COMPRESSION, now);
        return data, NO_COMPRESSION;
      }
      if config.enableMixedMode && |data| > config.chunkSize {
        z := CompressMixedMode(codec, pick, data, config.chunkSize);
        MixedPath(codec, pick, config, data);
        return z, MIXED;
      }
      if config.enableParallel && |data| > config.chunkSize {
        z := CompressParallel(codec, pick, data, config.chunkSize, config.maxParallelism, config.cpus);
        ParallelPath(codec, pick, config, data);
        return z, PARALLEL;
      }
      if config.enableStreaming && |data| > config.chunkSize {
        z := CompressStream(codec, pick, data, config.chunkSize);
        StreamPath(codec, pick, config, data);
        return z, STREAM;
      }
      var algorithm := pick(data);
      var compressed := Encode(codec, algorithm, data);
      PlainPath(codec, algorithm, data);
      RawPath(codec, data);
      if !gained {
        Remember(data, data, NO_COMPRESSION, now);
        return data, NO_COMPRESSION;
      }
      Remember(data, compressed, algorithm, now);
      return compressed, algorithm;
    }
  }
}
