/** Reading through the block cache: `readData` of db.go over the LRU of cache.go. Cached blocks
    are keyed by file and start; the hash over that pair is taken to be injective. */
module ReadPath {
  import opened Bytes
  import opened Codec
  import opened Entry
  import S = Store
  import opened Simulation
  import opened StoreSteps
  import StoreRuns
  import Lru

  const BLOCK := 4096

  datatype BlockKey = BlockKey(fileID: nat, start: nat)
  type Cache = Lru.Recency<BlockKey, Bytes>

  function BlockStart(pos: nat): (start: nat)
    ensures start <= pos < start + BLOCK
  {
    pos / BLOCK * BLOCK
  }

  /** A read of a whole block: what lies behind the end of the file stays zero. */
  function BlockAt(contents: Bytes, start: nat): (b: Bytes)
    ensures |b| == BLOCK
  {
    Fit(if start <= |contents| then contents[start..] else [], BLOCK)
  }

  datatype Read = Read(data: Option<Bytes>, cache: Cache)

  /** From the cached block if the value lies wholly inside it, else from the file, caching the block. */
  function ReadData(files: S.Files, cache: Cache, capacity: int, kd: S.KeyDir): Read {
    var key := BlockKey(kd.fileID, BlockStart(kd.valuePos));
    var cache' := Lru.AfterGet(cache, key);
    var offset := kd.valuePos - key.start;
    match Lru.Find(cache, key)
    case Some(block) =>
      if offset + kd.valueSize <= |block| then Read(Some(block[offset..offset + kd.valueSize]), cache')
      else ReadFromFile(files, cache', capacity, kd, key)
    case None => ReadFromFile(files, cache', capacity, kd, key)
  }

  function ReadFromFile(files: S.Files, cache: Cache, capacity: int, kd: S.KeyDir, key: BlockKey): Read {
    match S.ReadAt(files, kd)
    case None => Read(None, cache)
    case Some(data) =>
      Read(Some(data), Lru.AfterSet(cache, capacity, key, BlockAt(S.Contents(files, kd.fileID), key.start)))
  }

  /** After any read that succeeds, the block of the value's position is the most recent one; it was
      cached before, and holds the value, or is what the file has there now. Only a value reaching out of
      its block is read from the file again. */
  lemma ReadCaches(files: S.Files, cache: Cache, capacity: int, kd: S.KeyDir)
    ensures var start, r := kd.valuePos / 4096 * 4096, ReadData(files, cache, capacity, kd);
      var found := Lru.Find(cache, BlockKey(kd.fileID, start));
      var inside := found.Some? && kd.valuePos - start + kd.valueSize <= |found.value|;
      && (inside ==> r.data == Some(found.value[kd.valuePos - start..kd.valuePos - start + kd.valueSize]))
      && (!inside ==> r.data == S.ReadAt(files, kd))
      && (r.data.Some? ==>
        && r.cache != [] && r.cache[0].key == BlockKey(kd.fileID, start)
        && r.cache[0].value == if inside then found.value else BlockAt(S.Contents(files, kd.fileID), start))
      && (r.data.None? ==> |r.cache| <= |cache|)
  {
    Lru.WithoutKeeps(cache, BlockKey(kd.fileID, BlockStart(kd.valuePos)));
    Lru.FindIsItem(cache, BlockKey(kd.fileID, BlockStart(kd.valuePos)));
  }

  // ---- what every cached block is ----

  /** The block as it was when the file had n bytes. */
  predicate BlockFrom(contents: Bytes, start: nat, block: Bytes, n: nat) {
    n <= |contents| && block == BlockAt(contents[..n], start)
  }

  /** A value inside the block lay in the file already when it had n bytes. */
  predicate Seen(kd: S.KeyDir, key: BlockKey, n: nat) {
    kd.fileID == key.fileID && key.start <= kd.valuePos && kd.valuePos + kd.valueSize <= key.start + BLOCK
    ==> kd.valuePos + kd.valueSize <= n
  }

  ghost predicate AllSeen(index: S.Index, key: BlockKey, n: nat) {
    forall k :: k in index && !index[k].deleted ==> Seen(index[k], key, n)
  }

  ghost predicate BlockOk(s: S.Store, it: Lru.Item<BlockKey, Bytes>) {
    exists n: nat :: BlockFrom(S.Contents(s.files, it.key.fileID), it.key.start, it.value, n)
        && AllSeen(s.index, it.key, n)
  }

  ghost predicate CacheOk(s: S.Store, cache: Cache) {
    forall it :: it in cache ==> BlockOk(s, it)
  }

  lemma BlockSlice(contents: Bytes, start: nat, block: Bytes, n: nat, pos: nat, size: nat)
    requires BlockFrom(contents, start, block, n) && start <= pos && pos + size <= n && pos + size <= start + BLOCK
    ensures block[pos - start..pos - start + size] == contents[pos..pos + size]
  {
    var src := contents[..n][start..];
    var a, b := block[pos - start..pos - start + size], contents[pos..pos + size];
    forall i | 0 <= i < size ensures a[i] == b[i] {
      assert block[pos - start + i] == src[pos - start + i];
    }
  }

  /** Behind the n bytes it was read from, a block is zero. */
  lemma BlockPadding(contents: Bytes, start: nat, block: Bytes, n: nat, i: nat)
    requires BlockFrom(contents, start, block, n) && n <= start + i && i < BLOCK
    ensures block[i] == 0
  {
  }

  /** A hit on a live key returns the bytes a direct read of the file would. */
  lemma HitAgrees(s: S.Store, it: Lru.Item<BlockKey, Bytes>, k: S.Key)
    requires BlockOk(s, it) && k in s.index && !s.index[k].deleted
    requires it.key == BlockKey(s.index[k].fileID, BlockStart(s.index[k].valuePos))
    requires s.index[k].valuePos - it.key.start + s.index[k].valueSize <= |it.value|
    requires S.ReadAt(s.files, s.index[k]).Some?
    ensures var offset := s.index[k].valuePos - it.key.start;
      S.ReadAt(s.files, s.index[k]) == Some(it.value[offset..offset + s.index[k].valueSize])
  {
    var kd := s.index[k];
    var n: nat :| BlockFrom(S.Contents(s.files, it.key.fileID), it.key.start, it.value, n)
        && AllSeen(s.index, it.key, n);
    assert Seen(kd, it.key, n);
    BlockSlice(S.Contents(s.files, kd.fileID), it.key.start, it.value, n, kd.valuePos, kd.valueSize);
  }

  /** A freshly read block is one too. */
  lemma FreshBlockOk(s: S.Store, key: BlockKey)
    requires forall k :: k in s.index && !s.index[k].deleted ==> S.ReadAt(s.files, s.index[k]).Some?
    ensures BlockOk(s, Lru.Item(key, BlockAt(S.Contents(s.files, key.fileID), key.start)))
  {
    var contents := S.Contents(s.files, key.fileID);
    assert contents[..|contents|] == contents;
    forall k | k in s.index && !s.index[k].deleted ensures Seen(s.index[k], key, |contents|) {
      assert S.ReadAt(s.files, s.index[k]).Some?;
    }
    assert BlockFrom(contents, key.start, BlockAt(contents, key.start), |contents|);
  }

  lemma SetKeepsCacheOk(s: S.Store, cache: Cache, capacity: int, key: BlockKey, block: Bytes)
    requires CacheOk(s, cache) && BlockOk(s, Lru.Item(key, block))
    ensures CacheOk(s, Lru.AfterSet(cache, capacity, key, block))
  {
    var w := Lru.Without(cache, key);
    Lru.WithoutKeeps(cache, key);
    var e := Lru.Evicted(w, capacity);
    forall it | it in e ensures BlockOk(s, it) {
      assert it in w;
    }
  }

  lemma GetKeepsCacheOk(s: S.Store, cache: Cache, key: BlockKey)
    requires CacheOk(s, cache)
    ensures CacheOk(s, Lru.AfterGet(cache, key))
  {
    Lru.WithoutKeeps(cache, key);
    Lru.FindIsItem(cache, key);
  }

  /** The cache agrees with the files: for every live key the read returns exactly what a direct
      file read would, and leaves the cache in agreement. */
  lemma ReadDataAgrees(s: S.Store, cache: Cache, capacity: int, k: S.Key)
    requires CacheOk(s, cache) && k in s.index && !s.index[k].deleted
    requires forall j :: j in s.index && !s.index[j].deleted ==> S.ReadAt(s.files, s.index[j]).Some?
    ensures var r := ReadData(s.files, cache, capacity, s.index[k]);
      r.data == S.ReadAt(s.files, s.index[k]) && CacheOk(s, r.cache)
  {
    hide CacheOk, BlockOk;
    var kd := s.index[k];
    var key := BlockKey(kd.fileID, BlockStart(kd.valuePos));
    GetKeepsCacheOk(s, cache, key);
    FreshBlockOk(s, key);
    SetKeepsCacheOk(s, Lru.AfterGet(cache, key), capacity, key, BlockAt(S.Contents(s.files, kd.fileID), key.start));
    if Lru.Find(cache, key).Some? {
      FoundOk(s, cache, key);
      var block := Lru.Find(cache, key).value;
      if kd.valuePos - key.start + kd.valueSize <= |block| {
        HitAgrees(s, Lru.Item(key, block), k);
      }
    }
  }

  lemma FoundOk(s: S.Store, cache: Cache, key: BlockKey)
    requires CacheOk(s, cache) && Lru.Find(cache, key).Some?
    ensures BlockOk(s, Lru.Item(key, Lru.Find(cache, key).value))
  {
    Lru.FindIsItem(cache, key);
  }

  // ---- operations that keep the cache ----

  /** Appending to a file while keys only leave the live set keeps every cached block right. */
  lemma AppendKeepsCacheOk(s: S.Store, s': S.Store, cache: Cache)
    requires CacheOk(s, cache) && Grows(s.files, s'.files)
    requires forall k :: k in s'.index && !s'.index[k].deleted ==>
      k in s.index && !s.index[k].deleted && s'.index[k] == s.index[k].(ttl := s'.index[k].ttl)
    ensures CacheOk(s', cache)
  {
    forall it | it in cache ensures BlockOk(s', it) {
      assert BlockOk(s, it);
      var c, c' := S.Contents(s.files, it.key.fileID), S.Contents(s'.files, it.key.fileID);
      var n: nat :| BlockFrom(c, it.key.start, it.value, n) && AllSeen(s.index, it.key, n);
      assert c <= c';
      assert c'[..n] == c[..n];
      forall k | k in s'.index && !s'.index[k].deleted ensures Seen(s'.index[k], it.key, n) {
        assert Seen(s.index[k], it.key, n);
      }
      assert BlockFrom(c', it.key.start, it.value, n);
    }
  }

  /** Expiry appends a tombstone and does not clear the cache. */
  lemma ExpireKeepsCacheOk(env: S.Env, s: S.Store, cache: Cache, key: S.Key, ts: U32)
    requires CacheOk(s, cache)
    ensures CacheOk(S.Expire(env, s, key, ts), cache)
  {
    hide Serialize, CacheOk;
    AppendKeepsCacheOk(s, S.Expire(env, s, key, ts), cache);
  }

  lemma SetTTLKeepsCacheOk(s: S.Store, cache: Cache, key: S.Key, deadline: U32)
    requires CacheOk(s, cache)
    ensures CacheOk(S.SetTTL(s, key, deadline), cache)
  {
    hide CacheOk;
    AppendKeepsCacheOk(s, S.SetTTL(s, key, deadline), cache);
  }

  // ---- runs ----

  datatype Op =
    | Put(key: S.Key, value: Bytes, ts: U32, deadline: U32)
    | Delete(key: S.Key, ts: U32)
    | Expire(key: S.Key, ts: U32)
    | SetTTL(key: S.Key, deadline: U32)
    | Get(key: S.Key, now: U32)

  datatype Cached = Cached(store: S.Store, cache: Cache)

  /** A rejected Put or Delete clears nothing; an accepted one clears the whole cache. */
  function Step(env: S.Env, capacity: int, x: Cached, op: Op): Cached {
    match op
    case Put(key, value, ts, deadline) =>
      if key == [] then x else Cached(S.Put(env, x.store, key, value, ts, deadline), [])
    case Delete(key, ts) =>
      if key == [] || key !in x.store.index then x else Cached(S.Delete(env, x.store, key, ts), [])
    case Expire(key, ts) => x.(store := S.Expire(env, x.store, key, ts))
    case SetTTL(key, deadline) => x.(store := S.SetTTL(x.store, key, deadline))
    case Get(key, now) =>
      if key == [] || key !in x.store.index || x.store.index[key].deleted
          || S.Expired(x.store.index[key].ttl, now) then x
      else x.(cache := ReadData(x.store.files, x.cache, capacity, x.store.index[key]).cache)
  }

  /** Every accepted Put or Delete empties the cache; nothing else removes from it. */
  lemma WritesClear(env: S.Env, capacity: int, x: Cached, op: Op)
    ensures var y := Step(env, capacity, x, op);
      if (op.Put? && op.key != []) || (op.Delete? && op.key != [] && op.key in x.store.index) then y.cache == []
      else op.Get? || y.cache == x.cache
  {
    hide S.Put, S.Delete, S.Expire;
  }

  ghost predicate Good(env: S.Env, x: Cached, live: Live, clock: U32) {
    StoreRuns.StateHolds(env, x.store, live, clock) && CacheOk(x.store, x.cache)
  }

  /** In a reachable state every live key can be read. */
  lemma LiveReadable(env: S.Env, s: S.Store, live: Live, clock: U32)
    requires StoreRuns.StateHolds(env, s, live, clock)
    ensures forall k :: k in s.index && !s.index[k].deleted ==> S.ReadAt(s.files, s.index[k]).Some?
  {
    forall k | k in s.index && !s.index[k].deleted ensures S.ReadAt(s.files, s.index[k]).Some? {
      assert KeyHolds(env, s.files, s.index, S.RebuildBelow(env.codec, s.files, s.active + 1), live, clock, k);
    }
  }

  predicate OpAllowed(env: S.Env, op: Op, clock: U32) {
    match op
    case Put(key, value, ts, _) => StoreRuns.ItemOk(env, key, value) && clock <= ts
    case Delete(_, ts) => clock <= ts
    case Expire(_, ts) => clock <= ts
    case _ => true
  }

  function ClockAfter(op: Op, clock: U32): U32 {
    match op
    case Put(_, _, ts, _) => ts
    case Delete(_, ts) => ts
    case Expire(_, ts) => ts
    case _ => clock
  }

  function LiveAfter(live: Live, op: Op): Live {
    match op
    case Put(key, value, _, deadline) => Written(live, key, value, deadline)
    case Delete(key, _) => if key == [] then live else live - {key}
    case Expire(key, _) => live - {key}
    case SetTTL(key, deadline) => if key in live then live[key := live[key].(ttl := deadline)] else live
    case Get(_, _) => live
  }

  lemma StepStore(env: S.Env, capacity: int, x: Cached, live: Live, clock: U32, op: Op)
    requires StoreRuns.EnvOk(env) && StoreRuns.StateHolds(env, x.store, live, clock) && OpAllowed(env, op, clock)
    ensures StoreRuns.StateHolds(env, Step(env, capacity, x, op).store, LiveAfter(live, op), ClockAfter(op, clock))
  {
    match op
    case Put(key, value, ts, deadline) => StoreRuns.PutHolds(env, x.store, live, clock, key, value, ts, deadline);
    case Delete(key, ts) => StoreRuns.DeleteHolds(env, x.store, live, clock, key, ts);
    case Expire(key, ts) => StoreRuns.DeleteHolds(env, x.store, live, clock, key, ts);
    case SetTTL(key, deadline) => SetTTLHolds(env, x.store, live, clock, key, deadline);
    case Get(_, _) =>
  }

  lemma StepCache(env: S.Env, capacity: int, x: Cached, live: Live, clock: U32, op: Op)
    requires Good(env, x, live, clock)
    ensures var x' := Step(env, capacity, x, op); CacheOk(x'.store, x'.cache)
  {
    hide BlockOk, S.Put, S.Delete, S.Expire, ReadData, StoreRuns.StateHolds;
    match op
    case Expire(key, ts) => ExpireKeepsCacheOk(env, x.store, x.cache, key, ts);
    case SetTTL(key, deadline) => SetTTLKeepsCacheOk(x.store, x.cache, key, deadline);
    case Get(key, now) =>
      LiveReadable(env, x.store, live, clock);
      if key in x.store.index && !x.store.index[key].deleted {
        ReadDataAgrees(x.store, x.cache, capacity, key);
      }
    case Put(_, _, _, _) =>
    case Delete(_, _) =>
  }

  function Run(env: S.Env, capacity: int, x: Cached, ops: seq<Op>): Cached
    decreases |ops|
  {
    if ops == [] then x else Run(env, capacity, Step(env, capacity, x, ops[0]), ops[1..])
  }

  predicate RunAllowed(env: S.Env, ops: seq<Op>, clock: U32)
    decreases |ops|
  {
    ops == [] || (OpAllowed(env, ops[0], clock) && RunAllowed(env, ops[1..], ClockAfter(ops[0], clock)))
  }

  /** In every run of Put, Delete, expiry, SetTTL and Get over a cache of any capacity, a read of any
      live key through the cache returns the bytes in the file. */
  lemma {:induction false} CachedReadsAgree(env: S.Env, capacity: int, x: Cached, live: Live, clock: U32, ops: seq<Op>,
                                            k: S.Key)
    requires StoreRuns.EnvOk(env) && Good(env, x, live, clock) && RunAllowed(env, ops, clock)
    ensures var y := Run(env, capacity, x, ops);
      k in y.store.index && !y.store.index[k].deleted ==>
        ReadData(y.store.files, y.cache, capacity, y.store.index[k]).data == S.ReadAt(y.store.files, y.store.index[k])
    decreases |ops|
  {
    if ops == [] {
      LiveReadable(env, x.store, live, clock);
      if k in x.store.index && !x.store.index[k].deleted {
        ReadDataAgrees(x.store, x.cache, capacity, k);
      }
    } else {
      StepStore(env, capacity, x, live, clock, ops[0]);
      StepCache(env, capacity, x, live, clock, ops[0]);
      CachedReadsAgree(env, capacity, Step(env, capacity, x, ops[0]), LiveAfter(live, ops[0]),
          ClockAfter(ops[0], clock), ops[1..], k);
    }
  }

  // ---- the operations that do not clear ----

  /** A cached block is there and reaches over the whole value. */
  predicate Covered(cache: Cache, kd: S.KeyDir) {
    match Lru.Find(cache, BlockKey(kd.fileID, BlockStart(kd.valuePos)))
    case None => false
    case Some(block) => kd.valuePos - BlockStart(kd.valuePos) + kd.valueSize <= |block|
  }

  /** What the covering block has in place of the value. */
  function CachedBytes(cache: Cache, kd: S.KeyDir): Bytes
    requires Covered(cache, kd)
  {
    var offset := kd.valuePos - BlockStart(kd.valuePos);
    Lru.Find(cache, BlockKey(kd.fileID, BlockStart(kd.valuePos))).value[offset..offset + kd.valueSize]
  }

  /** Whatever the cache holds, the file is read unless a block covers the value. */
  lemma ReadRightIff(files: S.Files, cache: Cache, capacity: int, kd: S.KeyDir)
    requires S.ReadAt(files, kd).Some?
    ensures ReadData(files, cache, capacity, kd).data == S.ReadAt(files, kd)
      <==> (Covered(cache, kd) ==> CachedBytes(cache, kd) == S.ReadAt(files, kd).value)
  {
    hide BlockAt, Lru.AfterGet, Lru.AfterSet, S.ReadAt;
  }

  predicate AllZero(data: Bytes) {
    forall i :: 0 <= i < |data| ==> data[i] == 0
  }

  /** A value written behind everything its file held when the cache last agreed: a covering block
      is zero there. */
  lemma NewDataReadsIff(s: S.Store, files: S.Files, cache: Cache, capacity: int, kd: S.KeyDir)
    requires CacheOk(s, cache) && |S.Contents(s.files, kd.fileID)| <= kd.valuePos
    requires S.ReadAt(files, kd).Some?
    ensures ReadData(files, cache, capacity, kd).data == S.ReadAt(files, kd)
      <==> !Covered(cache, kd) || AllZero(S.ReadAt(files, kd).value)
  {
    hide BlockOk, CacheOk, S.ReadAt;
    ReadRightIff(files, cache, capacity, kd);
    var key := BlockKey(kd.fileID, BlockStart(kd.valuePos));
    if Covered(cache, kd) {
      FoundOk(s, cache, key);
      var block := Lru.Find(cache, key).value;
      PaddedTail(s, Lru.Item(key, block), kd);
      ReadAtSize(files, kd);
      ZeroSlice(block, kd.valuePos - key.start, S.ReadAt(files, kd).value);
    }
  }

  lemma ReadAtSize(files: S.Files, kd: S.KeyDir)
    requires S.ReadAt(files, kd).Some?
    ensures |S.ReadAt(files, kd).value| == kd.valueSize
  {
  }

  /** The last value a batch has for a key. */
  function LastValue(items: seq<S.Item>, key: S.Key): Option<Bytes> {
    if items == [] then None
    else
      var last := items[|items| - 1];
      if last.key == key && key != [] then Some(last.value) else LastValue(items[..|items| - 1], key)
  }

  predicate ItemsFit(env: S.Env, items: seq<S.Item>) {
    forall it :: it in items ==> |it.key| < TWO16 && |Compress(env.codec, env.compression, it.value).0| < TWO32
  }

  /** Where a batch leaves a key: new data behind the old end of the active file, or as it was. */
  predicate KeyWritten(env: S.Env, s: S.Store, s': S.Store, items: seq<S.Item>, key: S.Key) {
    match LastValue(items, key)
    case None => (key in s'.index <==> key in s.index) && (key in s.index ==> s'.index[key] == s.index[key])
    case Some(v) =>
      && key in s'.index && !s'.index[key].deleted
      && s'.index[key].fileID == s.active && |S.Contents(s.files, s.active)| <= s'.index[key].valuePos
      && S.ReadAt(s'.files, s'.index[key]) == Some(Compress(env.codec, env.compression, v).0)
  }

  lemma ReadAtGrows(files: S.Files, files': S.Files, kd: S.KeyDir)
    requires Grows(files, files') && S.ReadAt(files, kd).Some?
    ensures S.ReadAt(files', kd) == S.ReadAt(files, kd)
  {
    assert files[kd.fileID][kd.valuePos..kd.valuePos + kd.valueSize]
        == files'[kd.fileID][kd.valuePos..kd.valuePos + kd.valueSize];
  }

  lemma ItemWritten(env: S.Env, mid: S.Store, it: S.Item)
    requires mid.active in mid.files && it.key != [] && ItemsFit(env, [it])
    ensures var s' := S.BatchItem(env, mid, it);
      && it.key in s'.index && s'.index == mid.index[it.key := s'.index[it.key]]
      && var kd := s'.index[it.key];
      && !kd.deleted && kd.fileID == mid.active && |mid.files[mid.active]| <= kd.valuePos
      && S.ReadAt(s'.files, kd) == Some(Compress(env.codec, env.compression, it.value).0)
    ensures S.BatchItem(env, mid, it).active == mid.active && Grows(mid.files, S.BatchItem(env, mid, it).files)
  {
    hide Serialize, Compress;
    assert it in [it];
    var e, s' := S.PutEntry(env, it.key, it.value, it.ts, 0), S.BatchItem(env, mid, it);
    ReadAppended(env.codec, s'.files, mid.active, mid.files[mid.active], e);
  }

  lemma BatchItemWrites(env: S.Env, s: S.Store, mid: S.Store, items: seq<S.Item>, it: S.Item, key: S.Key)
    requires s.active in s.files && mid.active == s.active && Grows(s.files, mid.files)
    requires ItemsFit(env, [it]) && KeyWritten(env, s, mid, items, key)
    ensures var s' := S.BatchItem(env, mid, it);
      s'.active == s.active && Grows(mid.files, s'.files) && KeyWritten(env, s, s', items + [it], key)
  {
    hide S.WriteEntry, Compress, S.ReadAt;
    assert (items + [it])[..|items|] == items;
    if it.key != [] {
      ItemWritten(env, mid, it);
      if it.key != key && LastValue(items, key).Some? {
        ReadAtGrows(mid.files, S.BatchItem(env, mid, it).files, mid.index[key]);
      }
    }
  }

  lemma {:induction false} BatchItemsWrite(env: S.Env, s: S.Store, items: seq<S.Item>, key: S.Key)
    requires s.active in s.files && ItemsFit(env, items)
    ensures var s' := S.BatchItems(env, s, items);
      s'.active == s.active && Grows(s.files, s'.files) && KeyWritten(env, s, s', items, key)
  {
    hide S.BatchItem, KeyWritten;
    if items == [] {
      assert KeyWritten(env, s, s, items, key) by {
        NothingWritten(env, s, key);
      }
    } else {
      var init, last := items[..|items| - 1], items[|items| - 1];
      assert items == init + [last];
      BatchItemsWrite(env, s, init, key);
      BatchItemWrites(env, s, S.BatchItems(env, s, init), init, last, key);
      GrowsOn(s.files, S.BatchItems(env, s, init).files, S.BatchItems(env, s, items).files);
    }
  }

  lemma NothingWritten(env: S.Env, s: S.Store, key: S.Key)
    ensures KeyWritten(env, s, s, [], key)
  {
  }

  lemma GrowsOn(a: S.Files, b: S.Files, c: S.Files)
    requires Grows(a, b) && Grows(b, c)
    ensures Grows(a, c)
  {
  }

  /** BatchPut writes without clearing the cache. Afterwards, a read of a key in the batch returns its
      new bytes if and only if no cached block covers them or they are all zero, for a cached block is
      zero from the old end of the file on. Every other key still reads right. */
  lemma BatchPutReadsIff(env: S.Env, s: S.Store, cache: Cache, capacity: int, items: seq<S.Item>, key: S.Key)
    requires CacheOk(s, cache) && s.active in s.files && ItemsFit(env, items)
    requires forall k :: k in s.index && !s.index[k].deleted ==> S.ReadAt(s.files, s.index[k]).Some?
    ensures var s' := S.BatchPut(env, s, items);
      key in s'.index && !s'.index[key].deleted ==>
        var kd := s'.index[key];
        match LastValue(items, key)
        case Some(v) =>
          var z := Compress(env.codec, env.compression, v).0;
          && S.ReadAt(s'.files, kd) == Some(z)
          && (ReadData(s'.files, cache, capacity, kd).data == Some(z) <==> !Covered(cache, kd) || AllZero(z))
        case None => ReadData(s'.files, cache, capacity, kd).data == S.ReadAt(s'.files, kd)
  {
    hide S.BatchItems, CacheOk, S.ReadAt, Covered, ReadData, AllZero, Compress;
    var s1 := S.Rotate(s);
    assert Grows(s.files, s1.files) && S.Contents(s.files, s1.active) == S.Contents(s1.files, s1.active);
    assert Grows(s.files, s.files);
    var size := S.BatchSize(items);
    var s0 := if size > 0 then S.RotateFor(env, s, size) else s;
    var s' := S.BatchItems(env, s0, items);
    BatchItemsWrite(env, s0, items, key);
    GrowsOn(s.files, s0.files, s'.files);
    if LastValue(items, key).Some? {
      NewDataReadsIff(s, s'.files, cache, capacity, s'.index[key]);
    } else if key in s.index && !s.index[key].deleted {
      var mixed := S.Store(s'.files, s'.active, s.index, s.snaps);
      AppendKeepsCacheOk(s, mixed, cache);
      forall k | k in s.index && !s.index[k].deleted ensures S.ReadAt(s'.files, s.index[k]).Some? {
        ReadAtGrows(s.files, s'.files, s.index[k]);
      }
      ReadDataAgrees(mixed, cache, capacity, key);
    }
  }

  lemma PaddedTail(s: S.Store, it: Lru.Item<BlockKey, Bytes>, kd: S.KeyDir)
    requires BlockOk(s, it) && kd.fileID == it.key.fileID && |S.Contents(s.files, kd.fileID)| <= kd.valuePos
    requires it.key.start <= kd.valuePos
    ensures |it.value| == BLOCK
    ensures forall i :: kd.valuePos - it.key.start <= i < BLOCK ==> it.value[i] == 0
  {
    var c := S.Contents(s.files, it.key.fileID);
    var n: nat :| BlockFrom(c, it.key.start, it.value, n) && AllSeen(s.index, it.key, n);
    forall i: nat | kd.valuePos - it.key.start <= i < BLOCK ensures it.value[i] == 0 {
      BlockPadding(c, it.key.start, it.value, n, i);
    }
  }

  lemma ZeroSlice(block: Bytes, offset: nat, value: Bytes)
    requires offset <= |block| && forall i :: offset <= i < |block| ==> block[i] == 0
    ensures offset + |value| <= |block| ==>
      (block[offset..offset + |value|] == value <==> forall i :: 0 <= i < |value| ==> value[i] == 0)
  {
    if offset + |value| <= |block| {
      var z := block[offset..offset + |value|];
      assert forall i :: 0 <= i < |value| ==> z[i] == 0;
    }
  }
}
