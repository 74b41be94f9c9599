/** Compact and RestoreFromSnapshot replace the data files, reuse their ids, and leave the block cache
    as it is: which values still read right afterwards. */
module ReplacedFiles {
  import opened Bytes
  import opened Codec
  import opened Entry
  import S = Store
  import opened Simulation
  import opened StoreSteps
  import opened StoreRuns
  import opened StoreTheorems
  import Lru
  import opened ReadPath

  /** A cached block covers the value's place, and its file had n bytes when it was read. */
  ghost predicate CachedAt(s: State, cache: Cache, kd: S.KeyDir, n: nat) {
    var key := BlockKey(kd.fileID, BlockStart(kd.valuePos));
    Covered(cache, kd) && BlockFrom(S.Contents(s.files, kd.fileID), key.start, Lru.Find(cache, key).value, n)
  }

  /** The new file has at the value's place what the first n bytes of the old one had, or zeros behind
      them. */
  predicate SameThere(before: Bytes, n: nat, after: Bytes, kd: S.KeyDir)
    requires n <= |before| && kd.valuePos + kd.valueSize <= |after|
  {
    forall i :: kd.valuePos <= i < kd.valuePos + kd.valueSize ==> after[i] == if i < n then before[i] else 0
  }

  /** Whether the key reads through the cache what the files hold. */
  predicate ReadsRight(s: State, cache: Cache, capacity: int, key: Key)
    requires key in s.index
  {
    ReadData(s.files, cache, capacity, s.index[key]).data == S.ReadAt(s.files, s.index[key])
  }

  lemma CoveredWasCached(s: State, cache: Cache, kd: S.KeyDir) returns (n: nat)
    requires CacheOk(s, cache) && Covered(cache, kd)
    ensures CachedAt(s, cache, kd, n)
  {
    hide AllSeen, BlockAt;
    var key := BlockKey(kd.fileID, BlockStart(kd.valuePos));
    FoundOk(s, cache, key);
    var block := Lru.Find(cache, key).value;
    n :| BlockFrom(S.Contents(s.files, key.fileID), key.start, block, n) && AllSeen(s.index, key, n);
  }

  lemma CachedByte(s: State, cache: Cache, kd: S.KeyDir, n: nat, i: nat)
    requires CachedAt(s, cache, kd, n) && i < kd.valueSize
    ensures var before := S.Contents(s.files, kd.fileID);
      CachedBytes(cache, kd)[i] == if kd.valuePos + i < n then before[kd.valuePos + i] else 0
  {
    hide BlockStart;
    var before, start := S.Contents(s.files, kd.fileID), BlockStart(kd.valuePos);
    var block, off := BlockAt(before[..n], start), kd.valuePos - start + i;
    assert CachedBytes(cache, kd)[i] == block[off];
    if start <= n {
      var rest := before[..n][start..];
      assert off < |rest| ==> rest[off] == before[kd.valuePos + i];
    }
  }

  /** Every reading of the cached block agrees on whether the value reads right. */
  lemma CachedReadsIff(s: State, files: S.Files, cache: Cache, capacity: int, kd: S.KeyDir, n: nat)
    requires CachedAt(s, cache, kd, n) && S.ReadAt(files, kd).Some?
    ensures ReadData(files, cache, capacity, kd).data == S.ReadAt(files, kd)
      <==> SameThere(S.Contents(s.files, kd.fileID), n, files[kd.fileID], kd)
  {
    hide BlockAt, BlockStart, ReadData;
    ReadRightIff(files, cache, capacity, kd);
    var before, after := CachedBytes(cache, kd), S.ReadAt(files, kd).value;
    forall i: nat | i < kd.valueSize
      ensures before[i] == if kd.valuePos + i < n then S.Contents(s.files, kd.fileID)[kd.valuePos + i] else 0
      ensures after[i] == files[kd.fileID][kd.valuePos + i]
    {
      CachedByte(s, cache, kd, n, i);
    }
    if before == after {
      forall i | kd.valuePos <= i < kd.valuePos + kd.valueSize
        ensures files[kd.fileID][i] == if i < n then S.Contents(s.files, kd.fileID)[i] else 0
      {
        assert before[i - kd.valuePos] == after[i - kd.valuePos];
      }
    }
  }

  /** The old files' bytes decide about a value in the new ones. */
  ghost predicate OldBytesAgree(s: State, cache: Cache, s': State, key: Key)
    requires key in s'.index && S.ReadAt(s'.files, s'.index[key]).Some?
  {
    var kd := s'.index[key];
    forall n: nat :: CachedAt(s, cache, kd, n) ==> SameThere(S.Contents(s.files, kd.fileID), n, s'.files[kd.fileID], kd)
  }

  lemma ReplacedReadsIff(s: State, cache: Cache, capacity: int, s': State, key: Key)
    requires CacheOk(s, cache) && key in s'.index && S.ReadAt(s'.files, s'.index[key]).Some?
    ensures ReadsRight(s', cache, capacity, key) <==> OldBytesAgree(s, cache, s', key)
    ensures Covered(cache, s'.index[key]) <==> exists n: nat :: CachedAt(s, cache, s'.index[key], n)
  {
    hide CacheOk, SameThere, ReadData;
    var kd := s'.index[key];
    forall n: nat | CachedAt(s, cache, kd, n)
      ensures ReadsRight(s', cache, capacity, key)
          <==> SameThere(S.Contents(s.files, kd.fileID), n, s'.files[kd.fileID], kd)
    {
      CachedReadsIff(s, s'.files, cache, capacity, kd, n);
    }
    if Covered(cache, kd) {
      var n := CoveredWasCached(s, cache, kd);
    } else {
      ReadRightIff(s'.files, cache, capacity, kd);
    }
  }

  /** No cached block is of that file. */
  predicate NoBlockOf(cache: Cache, id: nat) {
    forall it :: it in cache ==> it.key.fileID != id
  }

  lemma NoBlockReadsRight(s': State, cache: Cache, capacity: int, key: Key)
    requires key in s'.index && S.ReadAt(s'.files, s'.index[key]).Some? && NoBlockOf(cache, s'.index[key].fileID)
    ensures ReadsRight(s', cache, capacity, key)
  {
    var kd := s'.index[key];
    Lru.FindIsItem(cache, BlockKey(kd.fileID, BlockStart(kd.valuePos)));
    ReadRightIff(s'.files, cache, capacity, kd);
  }

  // ---- the two operations ----

  /** Every live key of a reachable state can be read, from a file that is there. */
  lemma LiveReadAt(env: S.Env, s: State, live: Live, clock: U32, key: Key)
    requires StateHolds(env, s, live, clock) && key in live
    ensures key in s.index && S.ReadAt(s.files, s.index[key]).Some? && s.index[key].fileID in s.files
  {
    assert KeyHolds(env, s.files, s.index, S.RebuildBelow(env.codec, s.files, s.active + 1), live, clock, key);
  }

  lemma CompactedKey(env: S.Env, s: State, live: Live, clock: U32, order: seq<Key>, now: U32, key: Key)
    requires EnvOk(env) && StateHolds(env, s, live, clock) && S.Enumerates(order, s.index, now) && key in order
    ensures var s' := S.Compact(env, s, order);
      && s'.files.Keys == {1} && key in s'.index
      && S.ReadAt(s'.files, s'.index[key]).Some? && s'.index[key].fileID == 1
  {
    hide Holds, S.ReadAt, LaidOut, S.CompactKeys;
    forall k | k in order ensures k in live && k in Kept(live, now) {
      KeptKey(env, s, live, clock, now, k);
    }
    CompactHolds(env, s, live, clock, order, now);
    CompactLaidOut(env, s, live, clock, order);
    LiveReadAt(env, S.Compact(env, s, order), Kept(live, now), clock, key);
  }

  lemma KeptKey(env: S.Env, s: State, live: Live, clock: U32, now: U32, k: Key)
    requires StateHolds(env, s, live, clock) && k in s.index && S.KeptByCompact(s.index[k], now)
    ensures k in live && k in Kept(live, now)
  {
    assert KeyHolds(env, s.files, s.index, S.RebuildBelow(env.codec, s.files, s.active + 1), live, clock, k);
  }

  /** After a compaction, each kept key reads right through the cache if and only if, for the block that
      covers its new place in file 1 (if any is cached), the old file 1 as it was then had there just the
      bytes that are there now. */
  lemma CompactReadsIff(env: S.Env, s: State, live: Live, clock: U32, cache: Cache, capacity: int,
                        order: seq<Key>, now: U32, key: Key)
    requires EnvOk(env) && StateHolds(env, s, live, clock) && CacheOk(s, cache)
    requires S.Enumerates(order, s.index, now) && key in order
    ensures var s' := S.Compact(env, s, order);
      && key in s'.index && s'.index[key].fileID == 1 && S.ReadAt(s'.files, s'.index[key]).Some?
      && (ReadsRight(s', cache, capacity, key) <==> OldBytesAgree(s, cache, s', key))
      && (NoBlockOf(cache, 1) ==> ReadsRight(s', cache, capacity, key))
  {
    hide Holds, CacheOk, S.ReadAt, OldBytesAgree, ReadsRight, NoBlockOf, S.Compact;
    var s' := S.Compact(env, s, order);
    CompactedKey(env, s, live, clock, order, now, key);
    ReplacedReadsIff(s, cache, capacity, s', key);
    if NoBlockOf(cache, 1) {
      NoBlockReadsRight(s', cache, capacity, key);
    }
  }

  /** After a restore, the same for each live key, in whatever restored file it is. */
  lemma RestoreReadsIff(env: S.Env, s: State, w: World, clock: U32, cache: Cache, capacity: int, id: nat, key: Key)
    requires EnvOk(env) && Represents(env, s, w, clock) && CacheOk(s, cache) && id in s.snaps && key in w.snaps[id]
    ensures var s' := S.RestoreFromSnapshot(env.codec, s, id);
      && key in s'.index && s'.index[key].fileID in s'.files && S.ReadAt(s'.files, s'.index[key]).Some?
      && (ReadsRight(s', cache, capacity, key) <==> OldBytesAgree(s, cache, s', key))
      && ((forall f :: f in s'.files ==> NoBlockOf(cache, f)) ==> ReadsRight(s', cache, capacity, key))
  {
    hide Holds, SnapHolds, CacheOk, S.ReadAt, OldBytesAgree, ReadsRight, NoBlockOf, S.RestoreFromSnapshot;
    var s' := S.RestoreFromSnapshot(env.codec, s, id);
    RestoreStep(env, s, w, clock, id);
    LiveReadAt(env, s', w.snaps[id], clock, key);
    ReplacedReadsIff(s, cache, capacity, s', key);
    if forall f :: f in s'.files ==> NoBlockOf(cache, f) {
      NoBlockReadsRight(s', cache, capacity, key);
    }
  }
}
