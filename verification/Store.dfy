/** The log-structured store of db.go and snapshot.go as a transition system: data files are
    byte strings, the index points into them, and every operation is a function of the state. */
module Store {
  import opened Bytes
  import opened Codec
  import opened Framing
  import opened Entry

  /** What never changes while a database is open. */
  datatype Env = Env(codec: Codec, compression: Byte, maxFileSize: int)

  datatype KeyDir = KeyDir(
    fileID: nat,
    valueSize: U32,
    valuePos: nat,
    timestamp: U32,
    ttl: U32,
    compression: Byte,
    deleted: bool)

  type Key = Bytes
  type Index = map<Key, KeyDir>
  type Files = map<nat, Bytes>

  datatype Store = Store(files: Files, active: nat, index: Index, snaps: map<nat, Files>)

  function Contents(files: Files, id: nat): Bytes {
    if id in files then files[id] else []
  }

  // ---- rebuilding the index from the files ----

  predicate IsTombstone(c: Codec, e: Entry) {
    Decompress(c, e.value, e.compression) == Some(TOMBSTONE)
  }

  /** The index record a rebuild makes for an entry at offset `off` of file `id`. */
  function Pointer(c: Codec, id: nat, off: nat, e: Entry): KeyDir {
    KeyDir(id, e.valueSize, off + HEADER_SIZE + e.keySize, e.timestamp, e.ttl, e.compression, IsTombstone(c, e))
  }

  function ApplyEntry(c: Codec, index: Index, id: nat, at: Located<Entry>): Index {
    var e := at.item;
    if !VerifyCRC(c, e) then index
    else if e.key !in index || e.timestamp >= index[e.key].timestamp then
      index[e.key := Pointer(c, id, at.off, e)]
    else index
  }

  function Replay(c: Codec, index: Index, id: nat, es: seq<Located<Entry>>): Index {
    if es == [] then index
    else ApplyEntry(c, Replay(c, index, id, es[..|es| - 1]), id, es[|es| - 1])
  }

  lemma ReplayStep(c: Codec, index: Index, id: nat, es: seq<Located<Entry>>, at: Located<Entry>)
    ensures Replay(c, index, id, es + [at]) == ApplyEntry(c, Replay(c, index, id, es), id, at)
  {
    assert (es + [at])[..|es|] == es;
  }

  /** The index rebuilt from the files with ids below n, in numeric order of their ids. */
  function RebuildBelow(c: Codec, files: Files, n: nat): Index {
    if n == 0 then map[]
    else
      var earlier := RebuildBelow(c, files, n - 1);
      if n - 1 in files then Replay(c, earlier, n - 1, ScanFile(files[n - 1])) else earlier
  }

  predicate IsMax(ids: set<nat>, m: nat) {
    m in ids && forall id :: id in ids ==> id <= m
  }

  /** The file new writes go to after a rebuild: the highest id, or 1 in an empty directory. */
  ghost function ActiveAfterRebuild(files: Files): nat {
    if exists m: nat :: IsMax(files.Keys, m) then (var m: nat :| IsMax(files.Keys, m); m) else 1
  }

  ghost function Rebuild(c: Codec, files: Files): Index {
    RebuildBelow(c, files, ActiveAfterRebuild(files) + 1)
  }

  /** Open a data directory: rebuild the index, then open (or create) the active file. */
  ghost function Load(c: Codec, files: Files, snaps: map<nat, Files>): Store {
    var active := ActiveAfterRebuild(files);
    Store(files[active := Contents(files, active)], active, Rebuild(c, files), snaps)
  }

  // ---- reading ----

  function ReadAt(files: Files, kd: KeyDir): Option<Bytes> {
    if kd.fileID in files && kd.valuePos + kd.valueSize <= |files[kd.fileID]| then
      Some(files[kd.fileID][kd.valuePos..kd.valuePos + kd.valueSize])
    else None
  }

  function ReadValue(c: Codec, files: Files, kd: KeyDir): Option<Bytes> {
    match ReadAt(files, kd)
    case None => None
    case Some(data) => Decompress(c, data, kd.compression)
  }

  predicate Expired(ttl: U32, now: U32) {
    ttl > 0 && now >= ttl
  }

  /** The value a reader gets; None stands for each of the source's errors. */
  function Get(c: Codec, s: Store, key: Key, now: U32): Option<Bytes> {
    if key == [] || key !in s.index || s.index[key].deleted || Expired(s.index[key].ttl, now) then None
    else ReadValue(c, s.files, s.index[key])
  }

  // ---- writing ----

  function Append(s: Store, e: Entry): Store {
    s.(files := s.files[s.active := Contents(s.files, s.active) + Serialize(e)])
  }

  function Rotate(s: Store): Store {
    s.(active := s.active + 1, files := s.files[s.active + 1 := Contents(s.files, s.active + 1)])
  }

  function RotateFor(env: Env, s: Store, size: nat): Store {
    if |Contents(s.files, s.active)| + size > env.maxFileSize then Rotate(s) else s
  }

  function PutEntry(env: Env, key: Key, value: Bytes, ts: U32, deadline: U32): Entry {
    var (z, ct) := Compress(env.codec, env.compression, value);
    Seal(env.codec, ts, deadline, ct, key, z)
  }

  /** Append an entry and point the key at it. */
  function WriteEntry(s: Store, key: Key, e: Entry): Store {
    var pos := |Contents(s.files, s.active)| + HEADER_SIZE + e.keySize;
    var kd := KeyDir(s.active, e.valueSize, pos, e.timestamp, e.ttl, e.compression, false);
    Append(s, e).(index := s.index[key := kd])
  }

  function Put(env: Env, s: Store, key: Key, value: Bytes, ts: U32, deadline: U32): Store {
    if key == [] then s
    else
      var e := PutEntry(env, key, value, ts, deadline);
      WriteEntry(RotateFor(env, s, Size(e)), key, e)
  }

  /** One map item of a BatchPut, with the clock reading taken for it. */
  datatype Item = Item(key: Key, value: Bytes, ts: U32)

  function BatchSize(items: seq<Item>): nat {
    if items == [] then 0
    else
      (if items[0].key == [] then 0 else |items[0].value| + HEADER_SIZE + |items[0].key|)
      + BatchSize(items[1..])
  }

  function BatchItem(env: Env, s: Store, it: Item): Store {
    if it.key == [] then s else WriteEntry(s, it.key, PutEntry(env, it.key, it.value, it.ts, 0))
  }

  function BatchItems(env: Env, s: Store, items: seq<Item>): Store {
    if items == [] then s else BatchItem(env, BatchItems(env, s, items[..|items| - 1]), items[|items| - 1])
  }

  /** The items in the order the map iteration visits them. */
  function BatchPut(env: Env, s: Store, items: seq<Item>): Store {
    var size := BatchSize(items);
    BatchItems(env, if size > 0 then RotateFor(env, s, size) else s, items)
  }

  function TombstoneEntry(env: Env, key: Key, ts: U32): Entry {
    Seal(env.codec, ts, 0, env.compression, key, Compress(env.codec, env.compression, TOMBSTONE).0)
  }

  function Bury(env: Env, s: Store, key: Key, ts: U32): Store
    requires key in s.index
  {
    var e := TombstoneEntry(env, key, ts);
    Append(s, e).(index := s.index[key := s.index[key].(deleted := true, timestamp := ts)])
  }

  /** Delete refuses only keys the index has never seen; a deleted key is buried again. */
  function Delete(env: Env, s: Store, key: Key, ts: U32): Store {
    if key == [] || key !in s.index then s else Bury(env, s, key, ts)
  }

  function Expire(env: Env, s: Store, key: Key, ts: U32): Store {
    if key !in s.index || s.index[key].deleted then s else Bury(env, s, key, ts)
  }

  function SetTTL(s: Store, key: Key, deadline: U32): Store {
    if key !in s.index || s.index[key].deleted then s
    else s.(index := s.index[key := s.index[key].(ttl := deadline)])
  }

  // ---- compaction ----

  predicate KeptByCompact(kd: KeyDir, now: U32) {
    !kd.deleted && (kd.ttl == 0 || now <= kd.ttl)
  }

  /** Rewrite one key into the compacted store `done`; an unreadable key is skipped, and a
      value that does not decompress is carried over as it is. */
  function CompactKey(env: Env, s: Store, done: Store, key: Key): Store
    requires key in s.index
  {
    var kd := s.index[key];
    match ReadAt(s.files, kd)
    case None => done
    case Some(data) =>
      var value := match Decompress(env.codec, data, kd.compression) case Some(v) => v case None => data;
      WriteEntry(done, key, PutEntry(env, key, value, kd.timestamp, kd.ttl))
  }

  function CompactKeys(env: Env, s: Store, keys: seq<Key>): Store
    requires forall k :: k in keys ==> k in s.index
  {
    if keys == [] then Store(map[1 := []], 1, map[], s.snaps)
    else CompactKey(env, s, CompactKeys(env, s, keys[..|keys| - 1]), keys[|keys| - 1])
  }

  /** `order` lists the kept keys, each once, as the map iteration happens to visit them. */
  predicate Enumerates(order: seq<Key>, index: Index, now: U32) {
    && (forall i, j :: 0 <= i < j < |order| ==> order[i] != order[j])
    && (forall k :: k in order ==> k in index && KeptByCompact(index[k], now))
    && (forall k :: k in index && KeptByCompact(index[k], now) ==> k in order)
  }

  /** The compacted file replaces every data file, under id 1. */
  function Compact(env: Env, s: Store, order: seq<Key>): Store
    requires forall k :: k in order ==> k in s.index
  {
    CompactKeys(env, s, order)
  }

  // ---- snapshots ----

  function CreateSnapshot(s: Store, id: nat): Store {
    s.(snaps := s.snaps[id := s.files])
  }

  ghost function RestoreFromSnapshot(c: Codec, s: Store, id: nat): Store {
    if id in s.snaps then Load(c, s.snaps[id], s.snaps) else s
  }
}
