/** `readData` of db.go on the objects it works with: the database's files and the block cache. */
module BlockCacheObject {
  import opened Bytes
  import opened Codec
  import S = Store
  import Lru
  import ReadPath
  import opened Database

  type Blocks = Lru.LRUCache<ReadPath.BlockKey, Bytes>

  /** The value out of a cached block, if it lies wholly inside. */
  method ExtractDataFromBlock(block: Bytes, info: S.KeyDir, blockStart: nat) returns (data: Option<Bytes>)
    requires blockStart <= info.valuePos
    ensures var offset := info.valuePos - blockStart;
      data == if offset + info.valueSize <= |block| then Some(block[offset..offset + info.valueSize]) else None
  {
    var offsetInBlock := info.valuePos - blockStart;
    if offsetInBlock + info.valueSize <= |block| {
      return Some(block[offsetInBlock..offsetInBlock + info.valueSize]);
    }
    return None;
  }

  method ReadData(db: GojiDB, blocks: Blocks, info: S.KeyDir) returns (data: Option<Bytes>)
    requires blocks.Valid()
    modifies blocks
    ensures blocks.Valid()
    ensures var r := ReadPath.ReadData(db.files, old(blocks.List()), blocks.capacity, info);
      data == r.data && blocks.List() == r.cache
  {
    hide ReadPath.BlockAt, Lru.Without, Lru.Find;
    var key := ReadPath.BlockKey(info.fileID, ReadPath.BlockStart(info.valuePos));
    var cached := blocks.Get(key);
    if cached.Some? {
      data := ExtractDataFromBlock(cached.value, info, key.start);
      if data.Some? { return; }
    }
    data := S.ReadAt(db.files, info);
    if data.Some? {
      blocks.Set(key, ReadPath.BlockAt(S.Contents(db.files, info.fileID), key.start));
    }
  }

  /** Get, reading through the block cache: with a cache that agrees with the files it answers as if
      it read the file, and the cache still agrees. */
  method Get(db: GojiDB, blocks: Blocks, key: S.Key, now: nat) returns (reply: Reply)
    requires blocks.Valid() && ReadPath.CacheOk(db.View(), blocks.List())
    requires forall k :: k in db.keyDir && !db.keyDir[k].deleted ==> S.ReadAt(db.files, db.keyDir[k]).Some?
    modifies blocks
    ensures blocks.Valid() && ReadPath.CacheOk(db.View(), blocks.List())
    ensures S.Get(db.env.codec, db.View(), key, Unix(now)) == if reply.Value? then Some(reply.data) else None
    ensures reply == EmptyKey <==> key == []
    ensures reply == KeyExpired
        <==> key != [] && key in db.keyDir && !db.keyDir[key].deleted && S.Expired(db.keyDir[key].ttl, Unix(now))
    ensures reply == Missing <==> key != [] && (key !in db.keyDir || db.keyDir[key].deleted)
  {
    hide ReadPath.CacheOk, ReadPath.ReadData, S.ReadAt, Decompress;
    if key == [] { return EmptyKey; }
    if key !in db.keyDir || db.keyDir[key].deleted { return Missing; }
    var info := db.keyDir[key];
    if S.Expired(info.ttl, Unix(now)) { return KeyExpired; }
    ReadPath.ReadDataAgrees(db.View(), blocks.List(), blocks.capacity, key);
    var data := ReadData(db, blocks, info);
    var value := Decompress(db.env.codec, data.value, info.compression);
    return if value.Some? then Value(value.value) else Unreadable;
  }
}
