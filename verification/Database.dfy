/** The database object of db.go and snapshot.go: its methods update files and index in place,
    and each is proved to take exactly the step of `Store` that carries its name. */
module Database {
  import opened Bytes
  import opened Codec
  import opened Framing
  import opened Entry
  import S = Store

  const NANOS_PER_SECOND := 1_000_000_000

  /** `uint32(t.Unix())` for a clock reading in nanoseconds. */
  function Unix(nanos: nat): U32 {
    nanos / NANOS_PER_SECOND % TWO32
  }

  /** The TTL field of a Put: zero means no expiry, a negative duration expires at once. */
  function Deadline(ttl: int, nanos: nat): U32 {
    if ttl > 0 then Unix(nanos + ttl) else if ttl < 0 then Unix(nanos) else 0
  }

  datatype Reply = Value(data: Bytes) | EmptyKey | Missing | KeyExpired | Unreadable

  predicate IsMin(ids: set<nat>, m: nat) {
    m in ids && forall id :: id in ids ==> m <= id
  }

  lemma MinExists(ids: set<nat>)
    requires ids != {}
    ensures exists m: nat :: IsMin(ids, m)
  {
    var id :| id in ids;
    if ids == {id} {
      assert IsMin(ids, id);
    } else {
      MinExists(ids - {id});
      var m: nat :| IsMin(ids - {id}, m);
      assert forall i :: i in ids ==> i == id || i in ids - {id};
      assert IsMin(ids, if m < id then m else id);
    }
  }

  /** File ids in numeric order. */
  method SortedIds(ids: set<nat>) returns (sorted: seq<nat>)
    ensures forall i, j :: 0 <= i < j < |sorted| ==> sorted[i] < sorted[j]
    ensures forall id :: id in sorted <==> id in ids
  {
    sorted := [];
    var left := ids;
    while left != {}
      invariant left <= ids
      invariant forall i, j :: 0 <= i < j < |sorted| ==> sorted[i] < sorted[j]
      invariant forall id :: id in sorted <==> id in ids - left
      invariant forall i, id :: 0 <= i < |sorted| && id in left ==> sorted[i] < id
      decreases left
    {
      MinExists(left);
      var m: nat :| IsMin(left, m);
      sorted, left := sorted + [m], left - {m};
    }
  }

  class GojiDB {
    const env: S.Env
    var files: S.Files
    var activeFileID: nat
    var keyDir: S.Index
    var snapshots: map<nat, S.Files>

    function View(): S.Store
      reads this
    {
      S.Store(files, activeFileID, keyDir, snapshots)
    }

    constructor (env: S.Env, files: S.Files, snapshots: map<nat, S.Files>)
      ensures this.env == env && View() == S.Load(env.codec, files, snapshots)
    {
      this.env := env;
      this.files := files;
      this.snapshots := snapshots;
      activeFileID := 0;
      keyDir := map[];
      new;
      RebuildKeyDir();
      OpenActiveFile();
    }

    method OpenActiveFile()
      modifies this`files
      ensures files == old(files)[activeFileID := S.Contents(old(files), activeFileID)]
    {
      if activeFileID !in files {
        files := files[activeFileID := []];
      } else {
        assert files == files[activeFileID := files[activeFileID]];
      }
    }

    method RotateActiveFile()
      modifies this`files, this`activeFileID
      ensures View() == S.Rotate(old(View()))
    {
      activeFileID := activeFileID + 1;
      OpenActiveFile();
    }

    /** Write to the active file; the position returned is where the entry starts. */
    method AppendToActive(e: Entry) returns (pos: nat)
      modifies this`files
      ensures View() == S.Append(old(View()), e)
      ensures pos == |S.Contents(old(files), activeFileID)|
    {
      var buf := SerializeEntry(e);
      var contents := S.Contents(files, activeFileID);
      pos := |contents|;
      files := files[activeFileID := contents + buf[..]];
    }

    // ---- rebuilding ----

    method RebuildKeyDir()
      requires keyDir == map[]
      modifies this`activeFileID, this`keyDir
      ensures activeFileID == S.ActiveAfterRebuild(files)
      ensures keyDir == S.Rebuild(env.codec, files)
    {
      var ids := SortedIds(files.Keys);
      if |ids| == 0 {
        assert forall id :: id !in files.Keys;
        activeFileID := 1;
        assert S.RebuildBelow(env.codec, files, 2) == S.RebuildBelow(env.codec, files, 1) == map[];
        return;
      }
      var maxID, i := 0, 0;
      while i < |ids|
        invariant 0 <= i <= |ids|
        invariant i > 0 ==> maxID == ids[i - 1]
        invariant i == 0 ==> maxID == 0
      {
        if ids[i] > maxID {
          maxID := ids[i];
        }
        i := i + 1;
      }
      assert maxID in ids;
      assert S.IsMax(files.Keys, maxID);
      activeFileID := maxID;
      i := 0;
      while i < |ids|
        invariant 0 <= i <= |ids| && activeFileID == maxID
        invariant keyDir == S.RebuildBelow(env.codec, files, if i < |ids| then ids[i] else maxID + 1)
            || (i == 0 && keyDir == map[])
      {
        RebuildGap(env.codec, files, ids, i);
        ProcessFile(ids[i]);
        i := i + 1;
      }
      assert S.IsMax(files.Keys, maxID);
    }

    /** Rebuilding passes over ids that have no file. */
    static lemma {:induction false} RebuildSkips(c: Codec, files: S.Files, low: nat, high: nat)
      requires low <= high && forall id :: low <= id < high ==> id !in files
      ensures S.RebuildBelow(c, files, low) == S.RebuildBelow(c, files, high)
      decreases high
    {
      if low < high {
        RebuildSkips(c, files, low, high - 1);
      }
    }

    static lemma RebuildGap(c: Codec, files: S.Files, ids: seq<nat>, i: nat)
      requires i < |ids|
      requires forall j, k :: 0 <= j < k < |ids| ==> ids[j] < ids[k]
      requires forall id :: id in ids <==> id in files
      ensures i == 0 ==> S.RebuildBelow(c, files, ids[0]) == map[]
      ensures var next := if i + 1 < |ids| then ids[i + 1] else ids[i] + 1;
        S.RebuildBelow(c, files, next)
        == S.Replay(c, S.RebuildBelow(c, files, ids[i]), ids[i], ScanFile(files[ids[i]]))
    {
      assert ids[i] in files;
      if i == 0 {
        RebuildSkips(c, files, 0, ids[0]);
      }
      if i + 1 < |ids| {
        RebuildSkips(c, files, ids[i] + 1, ids[i + 1]);
      }
    }

    /** Read one file entry by entry; a torn tail ends the reading, a bad checksum skips the entry. */
    method ProcessFile(id: nat)
      requires id in files
      modifies this`keyDir
      ensures keyDir == S.Replay(env.codec, old(keyDir), id, ScanFile(files[id]))
    {
      ghost var all, before := ScanFile(files[id]), keyDir;
      var r, offset: nat := files[id], 0;
      ghost var done: seq<Located<Entry>> := [];
      assert keyDir == S.Replay(env.codec, before, id, done) && ScanFrom(r, offset, done) == all;
      hide S.Replay, S.ApplyEntry, ScanFrom, ReadEntry;
      while true
        invariant ScanFrom(r, offset, done) == all
        invariant keyDir == S.Replay(env.codec, before, id, done)
        decreases |r|
      {
        ScanEntry(r, offset, done);
        match ReadEntry(r)
        case EOF => return;
        case UnexpectedEOF =>
          r := [];
          ScanEntry(r, offset, done);
        case Got(e, size) =>
          S.ReplayStep(env.codec, before, id, done, Located(offset, e));
          IndexEntry(id, offset, e);
          done := done + [Located(offset, e)];
          r, offset := r[size..], offset + size;
      }
    }

    /** Enter one entry read back from a file, unless its checksum fails or the index has a newer one. */
    method IndexEntry(id: nat, offset: nat, e: Entry)
      modifies this`keyDir
      ensures keyDir == S.ApplyEntry(env.codec, old(keyDir), id, Located(offset, e))
    {
      if !VerifyCRC(env.codec, e) { return; }
      var valuePos := offset + HEADER_SIZE + e.keySize;
      var value := Decompress(env.codec, e.value, e.compression);
      var isTomb := value == Some(TOMBSTONE);
      if e.key !in keyDir || e.timestamp >= keyDir[e.key].timestamp {
        keyDir := keyDir[e.key := S.KeyDir(id, e.valueSize, valuePos, e.timestamp, e.ttl, e.compression, isTomb)];
      }
    }

    // ---- reads ----

    method Get(key: S.Key, now: nat) returns (reply: Reply)
      ensures S.Get(env.codec, View(), key, Unix(now)) == if reply.Value? then Some(reply.data) else None
      ensures reply == EmptyKey <==> key == []
      ensures reply == KeyExpired
          <==> key != [] && key in keyDir && !keyDir[key].deleted && S.Expired(keyDir[key].ttl, Unix(now))
      ensures reply == Missing <==> key != [] && (key !in keyDir || keyDir[key].deleted)
    {
      if key == [] { return EmptyKey; }
      if key !in keyDir || keyDir[key].deleted { return Missing; }
      var info := keyDir[key];
      if S.Expired(info.ttl, Unix(now)) { return KeyExpired; }
      match S.ReadAt(files, info)
      case None => return Unreadable;
      case Some(data) =>
        match Decompress(env.codec, data, info.compression)
        case None => return Unreadable;
        case Some(value) => return Value(value);
    }

    // ---- writes ----

    /** `now` is the clock when the entry is stamped, `later` when its expiry is computed. */
    method PutWithTTL(key: S.Key, value: Bytes, ttl: int, now: nat, later: nat) returns (ok: bool)
      modifies this
      ensures ok <==> key != []
      ensures View() == S.Put(env, old(View()), key, value, Unix(now), Deadline(ttl, later))
      ensures ok ==> key in keyDir && keyDir[key].timestamp == now / 1_000_000_000 % 0x1_0000_0000
      ensures ok && ttl > 0 ==> keyDir[key].ttl == (later + ttl) / 1_000_000_000 % 0x1_0000_0000
      ensures ok && ttl < 0 ==> keyDir[key].ttl == later / 1_000_000_000 % 0x1_0000_0000
      ensures ok && ttl == 0 ==> keyDir[key].ttl == 0
      ensures ok ==>
        var size := 19 + |key| % 0x1_0000 + |Compress(env.codec, env.compression, value).0| % 0x1_0000_0000;
        var full := |S.Contents(old(files), old(activeFileID))| + size > env.maxFileSize;
        activeFileID == keyDir[key].fileID == if full then old(activeFileID) + 1 else old(activeFileID)
    {
      hide Serialize, CrcInput, Compress;
      if key == [] { return false; }
      var (z, ct) := Compress(env.codec, env.compression, value);
      var e := Seal(env.codec, Unix(now), Deadline(ttl, later), ct, key, z);
      if |S.Contents(files, activeFileID)| + Size(e) > env.maxFileSize {
        RotateActiveFile();
      }
      var pos := AppendToActive(e);
      keyDir := keyDir[key := S.KeyDir(activeFileID, e.valueSize, pos + HEADER_SIZE + e.keySize,
                                       e.timestamp, e.ttl, e.compression, false)];
      return true;
    }

    /** Space the items could need, before compression. */
    static method EstimateSize(items: seq<S.Item>) returns (totalSize: nat)
      ensures totalSize == S.BatchSize(items)
    {
      var i := |items|;
      totalSize := 0;
      while i > 0
        invariant 0 <= i <= |items|
        invariant totalSize == S.BatchSize(items[i..])
      {
        i := i - 1;
        assert items[i..][1..] == items[i + 1..];
        if items[i].key != [] {
          totalSize := totalSize + |items[i].value| + HEADER_SIZE + |items[i].key|;
        }
      }
      assert items[0..] == items;
    }

    /** The items in map-iteration order; `currentPos` is carried along instead of asked for again. */
    method BatchPut(items: seq<S.Item>)
      modifies this
      ensures View() == S.BatchPut(env, old(View()), items)
    {
      if |items| == 0 { return; }
      var totalSize := EstimateSize(items);
      if totalSize > 0 && |S.Contents(files, activeFileID)| + totalSize > env.maxFileSize {
        RotateActiveFile();
      }
      BatchWrite(items);
    }

    method BatchWrite(items: seq<S.Item>)
      modifies this
      ensures View() == S.BatchItems(env, old(View()), items)
    {
      hide S.WriteEntry, S.PutEntry;
      var currentPos := |S.Contents(files, activeFileID)|;
      var i := 0;
      while i < |items|
        invariant 0 <= i <= |items|
        invariant View() == S.BatchItems(env, old(View()), items[..i])
        invariant currentPos == |S.Contents(files, activeFileID)|
      {
        assert items[..i + 1][..i] == items[..i];
        if items[i].key != [] {
          currentPos := BatchWriteOne(items[i], currentPos);
        }
        i := i + 1;
      }
      assert items[..|items|] == items;
    }

    method BatchWriteOne(item: S.Item, currentPos: nat) returns (nextPos: nat)
      requires item.key != [] && currentPos == |S.Contents(files, activeFileID)|
      modifies this
      ensures View() == S.BatchItem(env, old(View()), item)
      ensures nextPos == |S.Contents(files, activeFileID)|
    {
      var e := S.PutEntry(env, item.key, item.value, item.ts, 0);
      var _ := AppendToActive(e);
      keyDir := keyDir[item.key := S.KeyDir(activeFileID, e.valueSize, currentPos + HEADER_SIZE + e.keySize,
                                            e.timestamp, e.ttl, e.compression, false)];
      nextPos := currentPos + Size(e);
    }

    method Delete(key: S.Key, now: nat) returns (ok: bool)
      modifies this
      ensures ok <==> key != [] && key in old(keyDir)
      ensures View() == S.Delete(env, old(View()), key, Unix(now))
      ensures ok ==> keyDir[key].deleted && keyDir[key].timestamp == now / 1_000_000_000 % 0x1_0000_0000
    {
      if key == [] || key !in keyDir { return false; }
      DeleteInternal(key, now);
      return true;
    }

    method ExpireKey(key: S.Key, now: nat)
      modifies this
      ensures View() == S.Expire(env, old(View()), key, Unix(now))
    {
      if key in keyDir && !keyDir[key].deleted {
        DeleteInternal(key, now);
      }
    }

    method DeleteInternal(key: S.Key, now: nat)
      requires key in keyDir
      modifies this
      ensures View() == S.Bury(env, old(View()), key, Unix(now))
    {
      var e := S.TombstoneEntry(env, key, Unix(now));
      var _ := AppendToActive(e);
      keyDir := keyDir[key := keyDir[key].(deleted := true, timestamp := e.timestamp)];
    }

    method SetTTL(key: S.Key, ttl: int, now: nat) returns (ok: bool)
      modifies this
      ensures ok <==> key in old(keyDir) && !old(keyDir)[key].deleted
      ensures View() == S.SetTTL(old(View()), key, if ttl > 0 then Unix(now + ttl) else 0)
      ensures ok ==> keyDir[key].ttl == if ttl > 0 then (now + ttl) / 1_000_000_000 % 0x1_0000_0000 else 0
    {
      if key !in keyDir || keyDir[key].deleted { return false; }
      keyDir := keyDir[key := keyDir[key].(ttl := if ttl > 0 then Unix(now + ttl) else 0)];
      return true;
    }

    // ---- compaction and snapshots ----

    /** Rewrite the kept keys, in the given map-iteration order, into one file that replaces all. */
    method Compact(order: seq<S.Key>, now: nat)
      requires S.Enumerates(order, keyDir, Unix(now))
      modifies this
      ensures View() == S.Compact(env, old(View()), order)
    {
      var compactFile: Bytes, newKeyDir: S.Index, i := [], map[], 0;
      while i < |order|
        invariant 0 <= i <= |order|
        invariant View() == old(View())
        invariant S.CompactKeys(env, View(), order[..i]) == S.Store(map[1 := compactFile], 1, newKeyDir, snapshots)
      {
        assert order[..i + 1][..i] == order[..i];
        compactFile, newKeyDir := RewriteKey(compactFile, newKeyDir, order[i]);
        i := i + 1;
      }
      assert order[..|order|] == order;
      files, activeFileID, keyDir := map[1 := compactFile], 1, newKeyDir;
    }

    method RewriteKey(compactFile: Bytes, newKeyDir: S.Index, key: S.Key) returns (file: Bytes, index: S.Index)
      requires key in keyDir
      ensures S.CompactKey(env, View(), S.Store(map[1 := compactFile], 1, newKeyDir, snapshots), key)
           == S.Store(map[1 := file], 1, index, snapshots)
    {
      file, index := compactFile, newKeyDir;
      var oldKD := keyDir[key];
      var data := S.ReadAt(files, oldKD);
      if data.None? { return; }
      var value := Decompress(env.codec, data.value, oldKD.compression);
      var e := S.PutEntry(env, key, if value.Some? then value.value else data.value, oldKD.timestamp, oldKD.ttl);
      var buf := SerializeEntry(e);
      index := index[key := S.KeyDir(1, e.valueSize, |file| + HEADER_SIZE + e.keySize,
                                     e.timestamp, e.ttl, e.compression, false)];
      file := file + buf[..];
      assert map[1 := compactFile][1 := file] == map[1 := file];
    }

    method CreateSnapshot(id: nat)
      modifies this
      ensures View() == S.CreateSnapshot(old(View()), id)
    {
      var copies: S.Files := map[];
      var left := files.Keys;
      while left != {}
        invariant left <= files.Keys && View() == old(View())
        invariant copies == map f | f in files.Keys - left :: files[f]
        decreases left
      {
        var f :| f in left;
        copies, left := copies[f := files[f]], left - {f};
      }
      assert copies == files;
      snapshots := snapshots[id := copies];
    }

    method RestoreFromSnapshot(id: nat) returns (ok: bool)
      modifies this
      ensures ok <==> id in old(snapshots)
      ensures View() == S.RestoreFromSnapshot(env.codec, old(View()), id)
    {
      if id !in snapshots { return false; }
      files := snapshots[id];
      keyDir := map[];
      RebuildKeyDir();
      OpenActiveFile();
      return true;
    }
  }
}
