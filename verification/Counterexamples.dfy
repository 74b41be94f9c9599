/** One small input for each promise the code does not keep, from a new database where a state is
    needed. The exact conditions are in the modules the promises belong to. */
module Counterexamples {
  import opened Bytes
  import opened Codec
  import opened Entry
  import S = Store
  import opened Simulation
  import opened StoreSteps
  import opened StoreRuns
  import opened StoreTheorems
  import Wal
  import Replay
  import Transactions
  import Recovery
  import LoggedRuns
  import BatchSchedules
  import Crashes
  import Lru
  import ReadPath
  import ChunkedModes
  import MixedMode
  import SmartChoice

  ghost function New(env: S.Env): State {
    S.Load(env.codec, map[], map[])
  }

  lemma NewIs(env: S.Env)
    ensures New(env) == S.Store(map[1 := []], 1, map[], map[])
    ensures forall clock: U32 :: Represents(env, New(env), World(map[], map[]), clock)
  {
    assert S.RebuildBelow(env.codec, map[], 2) == map[] by {
      assert S.RebuildBelow(env.codec, map[], 1) == S.RebuildBelow(env.codec, map[], 0);
    }
    forall clock: U32 ensures Represents(env, New(env), World(map[], map[]), clock) {
      StartRepresents(env, clock);
    }
  }

  // ---- the store ----

  /** A value that happens to be the deletion marker: it reads back until the next restart. */
  lemma MarkerIsLost(env: S.Env, key: Key, ts: U32, t: U32)
    requires EnvOk(env) && 0 < |key| < TWO16
    ensures var s := S.Put(env, New(env), key, TOMBSTONE, ts, 0);
      && S.Get(env.codec, s, key, t) == Some(TOMBSTONE)
      && S.Get(env.codec, S.Load(env.codec, s.files, s.snaps), key, t) == None
  {
    NewIs(env);
    var e := S.PutEntry(env, key, TOMBSTONE, ts, 0);
    var s0 := S.RotateFor(env, New(env), Size(e));
    var s := S.WriteEntry(s0, key, e);
    assert Serves(env, New(env), map[]) by {
      assert forall k: Key :: KeyServes(env, New(env).files, New(env).index, map[], k);
    }
    Crashes.PutServes(env, New(env), map[], key, TOMBSTONE, ts);
    ServesReads(env, s, map[key := Meaning(TOMBSTONE, 0, 0)], key, t);
    hide S.Get, Serialize, Holds;
    assert Represents(env, New(env), World(map[], map[]), 0);
    RotatedRebuild(env, New(env), map[], 0, Size(e));
    MarkerBuries(env, s0, key, ts, t);
  }

  lemma MarkerBuries(env: S.Env, s: State, key: Key, ts: U32, t: U32)
    requires EnvOk(env) && StateHolds(env, s, map[], 0) && s.index == map[] && 0 < |key| < TWO16
    ensures var s' := S.WriteEntry(s, key, S.PutEntry(env, key, TOMBSTONE, ts, 0));
      S.Get(env.codec, S.Load(env.codec, s'.files, s'.snaps), key, t) == None
  {
    hide Serialize;
    var e := S.PutEntry(env, key, TOMBSTONE, ts, 0);
    RebuildAfterWrite(env, s, map[], 0, key, e);
    FittingEntry(env, key, TOMBSTONE, ts, 0);
    assert KeyHolds(env, s.files, s.index, S.RebuildBelow(env.codec, s.files, s.active + 1), map[], 0, key);
  }

  lemma OneStep(env: S.Env, s: State, w: World, clock: U32, op: Op)
    requires EnvOk(env) && Represents(env, s, w, clock) && Allowed(env, s, op, clock)
    ensures Represents(env, Step(env, s, op), Means(w, op), ClockAfter(op, clock))
    ensures forall key, t: U32 :: S.Get(env.codec, Step(env, s, op), key, t) == Reads(Means(w, op).live, key, t)
  {
    StepRepresents(env, s, w, clock, op);
    forall key, t: U32 ensures S.Get(env.codec, Step(env, s, op), key, t) == Reads(Means(w, op).live, key, t) {
      GetFromMeaning(env, Step(env, s, op), Means(w, op).live, ClockAfter(op, clock), key, t);
    }
  }

  /** In its last second a key is listed and does not read. */
  lemma ListedUnreadable(env: S.Env, key: Key, value: Bytes, ts: U32, deadline: U32)
    requires EnvOk(env) && key != [] && ItemOk(env, key, value) && deadline > 0
    ensures var s := S.Put(env, New(env), key, value, ts, deadline);
      Lists(s, key, deadline) && S.Get(env.codec, s, key, deadline) == None
  {
    NewIs(env);
    OneStep(env, New(env), World(map[], map[]), 0, Put(key, value, ts, deadline));
  }

  /** A snapshot taken while an expiry is only in memory brings the key back without it. */
  lemma SnapshotForgetsExpiry(env: S.Env, key: Key, value: Bytes, ts: U32, deadline: U32, id: nat)
    requires EnvOk(env) && key != [] && ItemOk(env, key, value) && deadline > 0
    ensures var s := S.CreateSnapshot(S.SetTTL(S.Put(env, New(env), key, value, ts, 0), key, deadline), id);
      && S.Get(env.codec, s, key, deadline) == None
      && S.Get(env.codec, S.RestoreFromSnapshot(env.codec, s, id), key, deadline) == Some(value)
  {
    hide S.Get, S.Put, S.SetTTL, S.RestoreFromSnapshot, Represents;
    NewIs(env);
    var w0, ops := World(map[], map[]), [Put(key, value, ts, 0), SetTTL(key, deadline), Snapshot(id), Restore(id)];
    OneStep(env, New(env), w0, 0, ops[0]);
    var s1, w1 := Step(env, New(env), ops[0]), Means(w0, ops[0]);
    OneStep(env, s1, w1, ts, ops[1]);
    var s2, w2 := Step(env, s1, ops[1]), Means(w1, ops[1]);
    OneStep(env, s2, w2, ts, ops[2]);
    OneStep(env, Step(env, s2, ops[2]), Means(w2, ops[2]), ts, ops[3]);
  }

  /** A read finds the key expired and schedules its removal; before that runs, the key is put again:
      the new value is gone. */
  lemma ExpiryTakesNewValue(env: S.Env, key: Key, v: Bytes, w: Bytes, ts: U32, deadline: U32, t: U32)
    requires EnvOk(env) && key != [] && ItemOk(env, key, v) && ItemOk(env, key, w)
    requires 0 < deadline && ts <= deadline <= t
    ensures var s1 := S.Put(env, New(env), key, v, ts, deadline);
      var s2 := S.Put(env, s1, key, w, deadline, 0);
      && S.Get(env.codec, s1, key, deadline) == None
      && S.Get(env.codec, s2, key, t) == Some(w)
      && S.Get(env.codec, S.Expire(env, s2, key, deadline), key, t) == None
  {
    hide S.Get, S.Put, S.Expire, Represents;
    NewIs(env);
    var w0, a, b, c := World(map[], map[]), Put(key, v, ts, deadline), Put(key, w, deadline, 0), Expire(key, deadline);
    OneStep(env, New(env), w0, 0, a);
    var s1, w1 := Step(env, New(env), a), Means(w0, a);
    OneStep(env, s1, w1, ts, b);
    OneStep(env, Step(env, s1, b), Means(w1, b), deadline, c);
  }

  /** Without the removal, SetTTL brings the expired key back; behind it, the key is gone for good. */
  lemma RevivedOrGone(env: S.Env, key: Key, v: Bytes, ts: U32, deadline: U32, t: U32)
    requires EnvOk(env) && key != [] && ItemOk(env, key, v) && 0 < deadline && ts <= deadline
    ensures var s := S.Put(env, New(env), key, v, ts, deadline);
      && S.Get(env.codec, s, key, deadline) == None
      && S.Get(env.codec, S.SetTTL(s, key, 0), key, t) == Some(v)
      && S.Get(env.codec, S.SetTTL(S.Expire(env, s, key, deadline), key, 0), key, t) == None
  {
    hide S.Get, S.Put, S.Expire, S.SetTTL, Represents;
    NewIs(env);
    var w0, a, b, c := World(map[], map[]), Put(key, v, ts, deadline), Expire(key, deadline), SetTTL(key, 0);
    OneStep(env, New(env), w0, 0, a);
    var s, w := Step(env, New(env), a), Means(w0, a);
    OneStep(env, s, w, ts, c);
    OneStep(env, s, w, ts, b);
    OneStep(env, Step(env, s, b), Means(w, b), deadline, c);
  }

  // ---- transactions ----

  /** Commit k := v, plainly put k := w, perhaps with an expiry, and restart: v is back, for good. */
  lemma CommittedValueReturns(env: S.Env, c: Transactions.Commit, k: Key, v: Bytes, w: Bytes, ts: U32, deadline: U32,
                              note: Wal.Record, later: U32, t: U32)
    requires EnvOk(env) && k != [] && ItemOk(env, k, v) && ItemOk(env, k, w) && note.txID == []
    requires Transactions.WellFormed(c) && c.ops == [Wal.PutOp(k, v)] && c.stamps[0] <= ts <= later
    ensures var d := Transactions.After(env, Transactions.Disk(New(env), []), c, Transactions.Finished(c));
      var d' := Transactions.Disk(S.Put(env, d.store, k, w, ts, deadline), d.log + [note]);
      && S.Get(env.codec, d'.store, k, t) == (if S.Expired(deadline, t) then None else Some(w))
      && Recovery.Restart(d', ts, [c.id], [later])
      && S.Get(env.codec, Transactions.Recover(env, d', [c.id], [later]), k, t) == Some(v)
  {
    hide S.Get, S.Put, Represents, Transactions.After, Transactions.Recover, Replay.Committed;
    NewIs(env);
    var d0, p0 := Transactions.Disk(New(env), []), LoggedRuns.Plain(World(map[], map[]), map[]);
    var a, b := LoggedRuns.Transact(c), LoggedRuns.Data(Put(k, w, ts, deadline), [note]);
    OnePut(env, c, k, v);
    LoggedRuns.StartStands(env, 0);
    LoggedRuns.StepStands(env, d0, p0, 0, a);
    var d, p := LoggedRuns.Step(env, d0, a), LoggedRuns.Means(p0, a);
    LoggedRuns.StepStands(env, d, p, c.stamps[0], b);
    var d', p' := LoggedRuns.Step(env, d, b), LoggedRuns.Means(p, b);
    LoggedReads(env, d', p', ts, k, t);
    var r := LoggedRuns.Restart([c.id], [later], []);
    LoggedRuns.StepStands(env, d', p', ts, r);
    LoggedReads(env, LoggedRuns.Step(env, d', r), LoggedRuns.Means(p', r), later, k, t);
    Transactions.LiveAfterLook(Durable(p'.world.live), [Wal.PutOp(k, v)], k);
  }

  lemma OnePut(env: S.Env, c: Transactions.Commit, k: Key, v: Bytes)
    requires Transactions.WellFormed(c) && c.ops == [Wal.PutOp(k, v)] && k != []
    ensures Transactions.Runnable(c.ops) == 1 && c.ops[..1] == c.ops && c.stamps[..1] == c.stamps
    ensures Transactions.Flat(map[c.id := c.ops], [c.id]) == c.ops
    ensures forall live: Live :: Transactions.LiveAfter(live, c.ops) == live[k := Meaning(v, 0, 0)]
  {
    assert [c.id][..0] == [] && [] + c.ops == c.ops && c.ops[..0] == [];
  }

  lemma LoggedReads(env: S.Env, d: Transactions.Disk, p: LoggedRuns.Plain, clock: U32, key: Key, t: U32)
    requires LoggedRuns.Stands(env, d, p, clock)
    ensures S.Get(env.codec, d.store, key, t) == Reads(p.world.live, key, t)
    ensures Replay.Committed(d.log) == p.journal
  {
    GetFromMeaning(env, d.store, p.world.live, clock, key, t);
  }

  /** So a value put later is reverted, although the Put meets every condition of a rebuild. */
  lemma LaterPutIsReverted(env: S.Env, c: Transactions.Commit, k: Key, v: Bytes, w: Bytes, ts: U32,
                           note: Wal.Record, later: U32, t: U32)
    requires EnvOk(env) && k != [] && ItemOk(env, k, v) && ItemOk(env, k, w) && v != w && note.txID == []
    requires Transactions.WellFormed(c) && c.ops == [Wal.PutOp(k, v)] && c.stamps[0] <= ts <= later
    ensures var d := Transactions.After(env, Transactions.Disk(New(env), []), c, Transactions.Finished(c));
      var d' := Transactions.Disk(S.Put(env, d.store, k, w, ts, 0), d.log + [note]);
      && S.Get(env.codec, d'.store, k, t) == Some(w)
      && Recovery.Restart(d', ts, [c.id], [later])
      && S.Get(env.codec, Transactions.Recover(env, d', [c.id], [later]), k, t) == Some(v)
  {
    hide S.Get, S.Put, Transactions.After, Transactions.Recover;
    CommittedValueReturns(env, c, k, v, w, ts, 0, note, later, t);
  }

  /** And an expiry set by a later put of the same value is gone. */
  lemma LaterExpiryIsLost(env: S.Env, c: Transactions.Commit, k: Key, v: Bytes, ts: U32, deadline: U32,
                          note: Wal.Record, later: U32)
    requires EnvOk(env) && k != [] && ItemOk(env, k, v) && deadline > 0 && note.txID == []
    requires Transactions.WellFormed(c) && c.ops == [Wal.PutOp(k, v)] && c.stamps[0] <= ts <= later
    ensures var d := Transactions.After(env, Transactions.Disk(New(env), []), c, Transactions.Finished(c));
      var d' := Transactions.Disk(S.Put(env, d.store, k, v, ts, deadline), d.log + [note]);
      && S.Get(env.codec, d'.store, k, deadline) == None
      && Recovery.Restart(d', ts, [c.id], [later])
      && S.Get(env.codec, Transactions.Recover(env, d', [c.id], [later]), k, deadline) == Some(v)
  {
    hide S.Get, S.Put, Transactions.After, Transactions.Recover;
    CommittedValueReturns(env, c, k, v, v, ts, deadline, note, later, deadline);
  }

  /** A Put with an empty key in the middle: what is before it is applied, what is behind it is not,
      Commit reports an error, and the log commits all. */
  lemma HalfCommitted(env: S.Env, c: Transactions.Commit, j: Key, k: Key, v: Bytes, t: U32)
    requires EnvOk(env) && Transactions.WellFormed(c) && Transactions.Timed(c.stamps, 0) && j != [] && k != [] && j != k
    requires c.ops == [Wal.PutOp(j, v), Wal.PutOp([], v), Wal.PutOp(k, v)]
    requires forall op :: op in c.ops ==> Transactions.OpOk(env, op)
    ensures var done := Transactions.After(env, Transactions.Disk(New(env), []), c, Transactions.Finished(c));
      && S.Get(env.codec, done.store, j, t) == Some(v) && S.Get(env.codec, done.store, k, t) == None
      && Replay.Committed(done.log) == map[c.id := c.ops]
  {
    hide S.Get, Transactions.After, Wal.IsProgram, Holds;
    NewIs(env);
    var d := Transactions.Disk(New(env), []);
    assert Represents(env, New(env), World(map[], map[]), 0);
    assert Transactions.Fresh(c, []) && Replay.Committed([]) == map[];
    Transactions.CommitOutcome(env, d, c, map[], 0);
    StopsAtOne(c.ops, j, k, v);
    assert Transactions.LiveAfter(map[], c.ops[..1]) == map[j := Meaning(v, 0, 0)] by {
      assert c.ops[..1][..0] == [];
    }
    var done := Transactions.After(env, d, c, Transactions.Finished(c));
    GetFromMeaning(env, done.store, map[j := Meaning(v, 0, 0)], Transactions.LastOf(c.stamps[..1], 0), j, t);
    GetFromMeaning(env, done.store, map[j := Meaning(v, 0, 0)], Transactions.LastOf(c.stamps[..1], 0), k, t);
  }

  lemma StopsAtOne(ops: seq<Wal.TxOp>, j: Key, k: Key, v: Bytes)
    requires j != [] && ops == [Wal.PutOp(j, v), Wal.PutOp([], v), Wal.PutOp(k, v)]
    ensures Transactions.Runnable(ops) == 1
  {
    assert ops[1..] == [Wal.PutOp([], v), Wal.PutOp(k, v)];
    assert Transactions.Runnable(ops[1..]) == 0;
  }

  /** Two transactions that put different values at one key: the map's iteration order decides. */
  lemma OrderDecides(t: Wal.TxID, u: Wal.TxID, k: Key, v: Bytes, w: Bytes, m: Replay.Data)
    requires t != u && k != [] && v != w
    ensures var txs: Replay.Txs := map[t := [Wal.PutOp(k, v)], u := [Wal.PutOp(k, w)]];
      && Replay.Enumerates([t, u], txs) && Replay.Enumerates([u, t], txs)
      && Replay.Look(Replay.ReplayIn(m, txs, [t, u]), k) == Some(w)
      && Replay.Look(Replay.ReplayIn(m, txs, [u, t]), k) == Some(v)
  {
    var txs: Replay.Txs := map[t := [Wal.PutOp(k, v)], u := [Wal.PutOp(k, w)]];
    Replay.LastDecides(m, txs, [t, u], k);
    Replay.LastDecides(m, txs, [u, t], k);
  }

  // ---- compression ----

  /** Three bytes in chunks of one for two workers: the third is lost. */
  lemma ParallelTailLost(c: Codec, pick: MixedMode.Chooser, data: Bytes)
    requires Lawful(c) && |data| == 3 && ChunkedModes.Fits32(c, data)
    ensures ChunkedModes.DecompressedParallel(c, ChunkedModes.CompressedParallel(c, pick, data, 1, 2))
        == MixedMode.Decoded(data[..2])
  {
    ChunkedModes.ParallelDecodes(c, pick, data, 1, 2);
    hide ChunkedModes.DecompressedParallel, ChunkedModes.CompressedParallel;
    assert ChunkedModes.CeilDiv(3, 1) == 3;
    assert ChunkedModes.ParallelPlan(3, 1, 2) == ChunkedModes.Plan(1, 2);
  }

  /** The empty input is cached and oldest: visited first, it is forgotten, and a younger one goes. */
  lemma YoungerEvicted(k: Bytes, early: SmartChoice.CacheEntry, late: SmartChoice.CacheEntry)
    requires k != [] && early.timestamp < late.timestamp
    ensures var cache := map[[] := early, k := late];
      SmartChoice.Victim(cache, [[], k]) == k && !SmartChoice.Oldest(cache, k)
  {
    var cache := map[[] := early, k := late];
    var none: Bytes := [];
    assert [none, k][..1] == [none] && [none][..0] == [];
    assert SmartChoice.Scanned(cache, [none]) == SmartChoice.Scan([], early.timestamp);
  }

  // ---- the block cache ----

  /** A new database after one Put that needs no rotation. */
  lemma PutOnNew(env: S.Env, key: Key, value: Bytes, ts: U32, deadline: U32)
    requires key != [] && Size(S.PutEntry(env, key, value, ts, deadline)) <= env.maxFileSize
    ensures var e := S.PutEntry(env, key, value, ts, deadline);
      S.Put(env, New(env), key, value, ts, deadline)
      == S.Store(map[1 := Serialize(e)], 1,
          map[key := S.KeyDir(1, e.valueSize, HEADER_SIZE + e.keySize, ts, deadline, e.compression, false)], map[])
  {
    NewIs(env);
    var e := S.PutEntry(env, key, value, ts, deadline);
    assert [] + Serialize(e) == Serialize(e);
  }

  lemma FirstBlock(pos: nat)
    requires pos < ReadPath.BLOCK
    ensures ReadPath.BlockStart(pos) == 0
  {
  }

  /** The first read fills an empty cache with the block around the value. */
  lemma FirstRead(files: S.Files, capacity: int, kd: S.KeyDir)
    requires S.ReadAt(files, kd).Some? && kd.valuePos < ReadPath.BLOCK
    ensures ReadPath.ReadData(files, [], capacity, kd).cache
         == [Lru.Item(ReadPath.BlockKey(kd.fileID, 0), ReadPath.BlockAt(S.Contents(files, kd.fileID), 0))]
  {
    hide ReadPath.BlockAt, ReadPath.BlockStart, S.ReadAt;
    FirstBlock(kd.valuePos);
  }

  /** BatchPut behind a cached block: Get has cached the first block of the file, the batch puts a new
      key into the same block, and reads of it find the zeros that were cached behind the old end. */
  lemma BatchPutMisread(env: S.Env, capacity: int, k: Key, v: Bytes, j: Key, w: Bytes, ts: U32)
    requires EnvOk(env) && k != [] && j != [] && ItemOk(env, k, v) && ItemOk(env, j, w)
    requires var size := Size(S.PutEntry(env, k, v, ts, 0)) + S.BatchSize([S.Item(j, w, ts)]);
      && size <= env.maxFileSize
      && Size(S.PutEntry(env, k, v, ts, 0)) + Size(S.PutEntry(env, j, w, ts, 0)) <= ReadPath.BLOCK
    requires !ReadPath.AllZero(Compress(env.codec, env.compression, w).0)
    ensures var s := S.Put(env, New(env), k, v, ts, 0);
      var cache := ReadPath.ReadData(s.files, [], capacity, s.index[k]).cache;
      var s' := S.BatchPut(env, s, [S.Item(j, w, ts)]);
      ReadPath.ReadData(s'.files, cache, capacity, s'.index[j]).data != S.ReadAt(s'.files, s'.index[j])
  {
    hide Compress, Serialize, ReadPath.ReadData, S.ReadAt, ReadPath.CacheOk, ReadPath.Covered, S.PutEntry;
    var e, items := S.PutEntry(env, k, v, ts, 0), [S.Item(j, w, ts)];
    var s := S.Put(env, New(env), k, v, ts, 0);
    EntrySizes(env, k, v, ts, 0);
    EntrySizes(env, j, w, ts, 0);
    FirstPut(env, capacity, k, v, ts);
    var cache := ReadPath.ReadData(s.files, [], capacity, s.index[k]).cache;
    var s' := S.BatchPut(env, s, items);
    SecondPut(env, s, j, w, ts);
    ReadPath.BatchPutReadsIff(env, s, cache, capacity, items, j);
    BlockCovers(cache, s'.index[j], ReadPath.BlockAt(S.Contents(s.files, 1), 0));
    assert ReadPath.LastValue(items, j) == Some(w);
  }

  lemma FirstPut(env: S.Env, capacity: int, k: Key, v: Bytes, ts: U32)
    requires EnvOk(env) && k != [] && ItemOk(env, k, v)
    requires var size := Size(S.PutEntry(env, k, v, ts, 0));
      size <= env.maxFileSize && size <= ReadPath.BLOCK && HEADER_SIZE + |k| < ReadPath.BLOCK
    ensures var e, s := S.PutEntry(env, k, v, ts, 0), S.Put(env, New(env), k, v, ts, 0);
      && s == S.Store(map[1 := Serialize(e)], 1, s.index, map[]) && s.index.Keys == {k} && !s.index[k].deleted
      && S.ReadAt(s.files, s.index[k]).Some?
      && var r := ReadPath.ReadData(s.files, [], capacity, s.index[k]);
      && r.cache == [Lru.Item(ReadPath.BlockKey(1, 0), ReadPath.BlockAt(Serialize(e), 0))]
      && ReadPath.CacheOk(s, r.cache)
  {
    hide Serialize, Compress, ReadPath.BlockAt, ReadPath.ReadData, ReadPath.BlockOk;
    PutOnNew(env, k, v, ts, 0);
    var e, s := S.PutEntry(env, k, v, ts, 0), S.Put(env, New(env), k, v, ts, 0);
    assert S.ReadAt(s.files, s.index[k]).Some?;
    FirstRead(s.files, capacity, s.index[k]);
    ReadPath.ReadDataAgrees(s, [], capacity, k);
  }

  lemma SecondPut(env: S.Env, s: State, j: Key, w: Bytes, ts: U32)
    requires j != [] && s.active in s.files && ItemOk(env, j, w)
    requires |s.files[s.active]| + S.BatchSize([S.Item(j, w, ts)]) <= env.maxFileSize
    ensures var e, s' := S.PutEntry(env, j, w, ts, 0), S.BatchPut(env, s, [S.Item(j, w, ts)]);
      && j in s'.index && !s'.index[j].deleted && s'.index[j].fileID == s.active
      && s'.index[j].valuePos == |s.files[s.active]| + HEADER_SIZE + |j| && s'.index[j].valueSize == |e.value|
  {
    hide Compress, Serialize;
    var items := [S.Item(j, w, ts)];
    assert items[..0] == [];
    assert S.BatchItems(env, s, items) == S.BatchItem(env, S.BatchItems(env, s, items[..0]), items[0]);
  }

  lemma BlockCovers(cache: ReadPath.Cache, kd: S.KeyDir, block: Bytes)
    requires cache == [Lru.Item(ReadPath.BlockKey(kd.fileID, 0), block)] && |block| == ReadPath.BLOCK
    requires kd.valuePos < ReadPath.BLOCK && kd.valuePos + kd.valueSize <= ReadPath.BLOCK
    ensures ReadPath.Covered(cache, kd)
    ensures ReadPath.CachedBytes(cache, kd) == block[kd.valuePos..kd.valuePos + kd.valueSize]
  {
    FirstBlock(kd.valuePos);
  }

  /** Two puts in one file. */
  lemma TwoPuts(env: S.Env, a: Key, v: Bytes, b: Key, w: Bytes, ts: U32, deadline: U32)
    requires EnvOk(env) && a != [] && b != [] && a != b && ItemOk(env, a, v) && ItemOk(env, b, w)
    requires Size(S.PutEntry(env, a, v, ts, deadline)) + Size(S.PutEntry(env, b, w, ts, 0)) <= env.maxFileSize
    ensures var e1, e2 := S.PutEntry(env, a, v, ts, deadline), S.PutEntry(env, b, w, ts, 0);
      var s := S.Put(env, S.Put(env, New(env), a, v, ts, deadline), b, w, ts, 0);
      && s == S.Store(map[1 := Serialize(e1) + Serialize(e2)], 1, s.index, map[]) && s.index.Keys == {a, b}
      && s.index[a] == S.KeyDir(1, e1.valueSize, HEADER_SIZE + e1.keySize, ts, deadline, e1.compression, false)
      && s.index[b] == S.KeyDir(1, e2.valueSize, Size(e1) + HEADER_SIZE + e2.keySize, ts, 0, e2.compression, false)
      && S.ReadAt(s.files, s.index[a]) == Some(e1.value) && S.ReadAt(s.files, s.index[b]) == Some(e2.value)
  {
    hide Serialize, Compress, Decompress, S.Put, S.PutEntry, S.ReadAt, New;
    PutOnNew(env, a, v, ts, deadline);
    EntrySizes(env, a, v, ts, deadline);
    EntrySizes(env, b, w, ts, 0);
    var e1, e2 := S.PutEntry(env, a, v, ts, deadline), S.PutEntry(env, b, w, ts, 0);
    var s1 := S.Put(env, New(env), a, v, ts, deadline);
    var s := S.Put(env, s1, b, w, ts, 0);
    PutAppends(env, s1, b, w, ts);
    assert s1.files[1] == [] + Serialize(e1);
    ReadAppended(env.codec, s1.files, 1, [], e1);
    SameBytes(s1.files, S.Pointer(env.codec, 1, 0, e1), s1.index[a]);
    ReadPath.ReadAtGrows(s1.files, s.files, s.index[a]);
    assert map[1 := Serialize(e1)][1 := Serialize(e1) + Serialize(e2)] == map[1 := Serialize(e1) + Serialize(e2)];
  }

  lemma EntrySizes(env: S.Env, key: Key, value: Bytes, ts: U32, deadline: U32)
    requires ItemOk(env, key, value)
    ensures var e := S.PutEntry(env, key, value, ts, deadline);
      && Sized(e) && e.key == key && e.timestamp == ts && e.ttl == deadline
      && e.value == Compress(env.codec, env.compression, value).0
  {
  }

  /** A Put that needs no rotation. */
  lemma PutAppends(env: S.Env, s: State, key: Key, value: Bytes, ts: U32)
    requires key != [] && ItemOk(env, key, value) && s.active in s.files
    requires |s.files[s.active]| + Size(S.PutEntry(env, key, value, ts, 0)) <= env.maxFileSize
    ensures var e, s' := S.PutEntry(env, key, value, ts, 0), S.Put(env, s, key, value, ts, 0);
      var pos := |s.files[s.active]| + HEADER_SIZE + e.keySize;
      var kd := S.KeyDir(s.active, e.valueSize, pos, ts, 0, e.compression, false);
      && s' == S.Store(s.files[s.active := s.files[s.active] + Serialize(e)], s.active, s.index[key := kd], s.snaps)
      && S.ReadAt(s'.files, kd) == Some(e.value)
  {
    hide Serialize, Compress, Decompress, S.ReadAt;
    var e, s' := S.PutEntry(env, key, value, ts, 0), S.Put(env, s, key, value, ts, 0);
    ReadAppended(env.codec, s'.files, s.active, s.files[s.active], e);
    SameBytes(s'.files, S.Pointer(env.codec, s.active, |s.files[s.active]|, e), s'.index[key]);
  }

  lemma CompactsTo(env: S.Env, s: State, b: Key, w: Bytes)
    requires b in s.index && S.ReadAt(s.files, s.index[b]).Some?
    requires Decompress(env.codec, S.ReadAt(s.files, s.index[b]).value, s.index[b].compression) == Some(w)
    ensures var e := S.PutEntry(env, b, w, s.index[b].timestamp, s.index[b].ttl);
      S.Compact(env, s, [b]) == S.Store(map[1 := Serialize(e)], 1,
        map[b := S.KeyDir(1, e.valueSize, HEADER_SIZE + e.keySize, e.timestamp, e.ttl, e.compression, false)], s.snaps)
  {
    hide Serialize, Compress, Decompress, S.ReadAt;
    assert [b][..0] == [];
    var e := S.PutEntry(env, b, w, s.index[b].timestamp, s.index[b].ttl);
    assert [] + Serialize(e) == Serialize(e);
    assert S.CompactKeys(env, s, [b]) == S.CompactKey(env, s, S.CompactKeys(env, s, [b][..0]), b);
  }

  lemma ValueInBlock(e: Entry, rest: Bytes)
    requires Sized(e) && Size(e) <= ReadPath.BLOCK
    ensures var at := HEADER_SIZE + e.keySize;
      ReadPath.BlockAt(Serialize(e) + rest, 0)[at..at + e.valueSize] == e.value
  {
    hide BE;
    var b, at := Serialize(e) + rest, HEADER_SIZE + e.keySize;
    var block := ReadPath.BlockAt(b, 0);
    assert b[0..] == b;
    forall i | 0 <= i < |e.value| ensures block[at..at + e.valueSize][i] == e.value[i] {
      assert block[at + i] == b[at + i];
    }
  }

  /** Compact behind a cached block: a and b are put, a read of a caches the first block, a expires
      (which does not clear the cache), and compaction moves b to where a was. A read of b then
      returns the bytes of a. */
  lemma CompactMisread(env: S.Env, capacity: int, a: Key, v: Bytes, b: Key, w: Bytes, ts: U32, deadline: U32)
    requires EnvOk(env) && a != [] && |a| == |b| && a != b && ItemOk(env, a, v) && ItemOk(env, b, w)
    requires var e1, e2 := S.PutEntry(env, a, v, ts, deadline), S.PutEntry(env, b, w, ts, 0);
      && Size(e1) + Size(e2) <= env.maxFileSize && Size(e1) <= ReadPath.BLOCK && HEADER_SIZE + |a| < ReadPath.BLOCK
      && |e1.value| == |e2.value| && e1.value != e2.value
    ensures var s := S.Put(env, S.Put(env, New(env), a, v, ts, deadline), b, w, ts, 0);
      && S.ReadAt(s.files, s.index[a]).Some?
      && var cache := ReadPath.ReadData(s.files, [], capacity, s.index[a]).cache;
      var s1 := S.Expire(env, s, a, deadline);
      && S.Enumerates([b], s1.index, deadline)
      && var s2 := S.Compact(env, s1, [b]);
      && S.ReadAt(s2.files, s2.index[b]) == Some(S.PutEntry(env, b, w, ts, 0).value)
      && ReadPath.ReadData(s2.files, cache, capacity, s2.index[b]).data
          == Some(S.PutEntry(env, a, v, ts, deadline).value)
  {
    hide Serialize, Compress, Decompress, S.ReadAt, ReadPath.BlockAt, S.Put, S.Compact, S.Expire, ReadPath.ReadData,
        S.PutEntry, S.Enumerates;
    hide ReadPath.Covered, ReadPath.CachedBytes;
    var e1, e2 := S.PutEntry(env, a, v, ts, deadline), S.PutEntry(env, b, w, ts, 0);
    var s := S.Put(env, S.Put(env, New(env), a, v, ts, deadline), b, w, ts, 0);
    TwoPuts(env, a, v, b, w, ts, deadline);
    EntrySizes(env, a, v, ts, deadline);
    EntrySizes(env, b, w, ts, 0);
    FirstRead(s.files, capacity, s.index[a]);
    var cache := ReadPath.ReadData(s.files, [], capacity, s.index[a]).cache;
    var s1 := S.Expire(env, s, a, deadline);
    AfterExpiry(env, s, a, b, deadline);
    ReadPath.ReadAtGrows(s.files, s1.files, s1.index[b]);
    assert Decompress(env.codec, e2.value, e2.compression) == Some(w) by {
      EntryDecodes(env, b, w, ts);
    }
    CompactsTo(env, s1, b, w);
    var s2 := S.Compact(env, s1, [b]);
    assert s2.files[1] == [] + Serialize(e2);
    ReadAppended(env.codec, s2.files, 1, [], e2);
    SameBytes(s2.files, S.Pointer(env.codec, 1, 0, e2), s2.index[b]);
    ValueInBlock(e1, Serialize(e2));
    BlockCovers(cache, s2.index[b], ReadPath.BlockAt(Serialize(e1) + Serialize(e2), 0));
    CoveredRead(s2.files, cache, capacity, s2.index[b]);
  }

  lemma EntryDecodes(env: S.Env, key: Key, value: Bytes, ts: U32)
    requires Lawful(env.codec)
    ensures var e := S.PutEntry(env, key, value, ts, 0); Decompress(env.codec, e.value, e.compression) == Some(value)
  {
    CompressRoundTrip(env.codec, env.compression, value);
  }

  lemma AfterExpiry(env: S.Env, s: State, a: Key, b: Key, now: U32)
    requires s.index.Keys == {a, b} && a != b && !s.index[a].deleted && !s.index[b].deleted && s.index[b].ttl == 0
    ensures var s1 := S.Expire(env, s, a, now);
      && b in s1.index && s1.index[b] == s.index[b] && Grows(s.files, s1.files) && s1.snaps == s.snaps
      && S.Enumerates([b], s1.index, now)
  {
    hide Serialize, S.TombstoneEntry;
  }

  lemma CoveredRead(files: S.Files, cache: ReadPath.Cache, capacity: int, kd: S.KeyDir)
    requires ReadPath.Covered(cache, kd)
    ensures ReadPath.ReadData(files, cache, capacity, kd).data == Some(ReadPath.CachedBytes(cache, kd))
  {
  }

  // ---- batched reads ----

  /** Two different one-byte values, stored uncompressed and read in one batch. */
  lemma BatchGetClash(env: S.Env, a: Key, v: Bytes, b: Key, w: Bytes, ts: U32, now: U32, cpus: nat)
      returns (bad: BatchSchedules.Schedule, answers: map<Key, Bytes>)
    requires EnvOk(env) && env.compression == NO_COMPRESSION && a != [] && b != [] && a != b
    requires ItemOk(env, a, v) && ItemOk(env, b, w) && |v| == |w| == 1 && v != w
    requires Size(S.PutEntry(env, a, v, ts, 0)) + Size(S.PutEntry(env, b, w, ts, 0)) <= env.maxFileSize
    ensures var s := S.Put(env, S.Put(env, New(env), a, v, ts, 0), b, w, ts, 0);
      && BatchSchedules.Possible(s, [a, b], now, cpus, bad)
      && BatchSchedules.Answers(env.codec, s, [a, b], now, bad, answers)
      && !BatchSchedules.AllRight(env.codec, s, [a, b], now, answers)
  {
    hide BatchSchedules.Possible, BatchSchedules.Answers, BatchSchedules.AllRight, Serialize, S.ReadAt, S.Put;
    var s := S.Put(env, S.Put(env, New(env), a, v, ts, 0), b, w, ts, 0);
    TwoPuts(env, a, v, b, w, ts, 0);
    EntrySizes(env, a, v, ts, 0);
    EntrySizes(env, b, w, ts, 0);
    bad, answers := BatchSchedules.UncompressedClash(env.codec, s, a, b, now, cpus);
  }
}
