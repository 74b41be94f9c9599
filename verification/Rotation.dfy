/** When a new data file is opened, in sizes and limits written out, and which operations can take a
    file past its limit. */
module Rotation {
  import opened Bytes
  import opened Codec
  import opened Entry
  import S = Store
  import opened Simulation
  import opened StoreSteps
  import opened StoreRuns

  /** The bytes a Put writes: a 19-byte header, the key (its size kept in 16 bits) and the stored value
      (32 bits). */
  function EntrySize(env: S.Env, key: Key, value: Bytes): nat {
    19 + |key| % 0x1_0000 + |Compress(env.codec, env.compression, value).0| % 0x1_0000_0000
  }

  /** The file that is active afterwards has grown by so much; the others are as they were. */
  predicate GrownBy(s: State, s': State, size: nat) {
    && s'.files.Keys == s.files.Keys + {s'.active}
    && (forall id :: id in s.files && id != s'.active ==> s'.files[id] == s.files[id])
    && S.Contents(s.files, s'.active) <= s'.files[s'.active]
    && |s'.files[s'.active]| == |S.Contents(s.files, s'.active)| + size
  }

  /** A Put goes to the next file if and only if the active one would grow past the limit. */
  lemma PutRotatesIff(env: S.Env, s: State, key: Key, value: Bytes, ts: U32, deadline: U32)
    requires key != [] && s.active in s.files
    ensures var s', size := S.Put(env, s, key, value, ts, deadline), EntrySize(env, key, value);
      && s'.active == (if |s.files[s.active]| + size > env.maxFileSize then s.active + 1 else s.active)
      && (s.active + 1 !in s.files ==> GrownBy(s, s', size))
  {
    hide Serialize, Compress;
    var e := S.PutEntry(env, key, value, ts, deadline);
    assert Size(e) == EntrySize(env, key, value) && |Serialize(e)| == Size(e);
  }

  /** A BatchPut decides once, before its first write, on its values uncompressed. */
  function Estimate(items: seq<S.Item>): nat {
    if items == [] then 0
    else
      var last := items[|items| - 1];
      Estimate(items[..|items| - 1]) + if last.key == [] then 0 else |last.value| + 19 + |last.key|
  }

  lemma {:induction false} BatchSizeConcat(a: seq<S.Item>, b: seq<S.Item>)
    ensures S.BatchSize(a + b) == S.BatchSize(a) + S.BatchSize(b)
  {
    if a == [] {
      assert a + b == b;
    } else {
      assert (a + b)[1..] == a[1..] + b;
      BatchSizeConcat(a[1..], b);
    }
  }

  lemma {:induction false} BatchSizeIs(items: seq<S.Item>)
    ensures S.BatchSize(items) == Estimate(items)
  {
    if items != [] {
      var init, last := items[..|items| - 1], items[|items| - 1];
      assert items == init + [last] && [last][1..] == [];
      BatchSizeConcat(init, [last]);
      BatchSizeIs(init);
      assert S.BatchSize([last]) == if last.key == [] then 0 else |last.value| + 19 + |last.key|;
    }
  }

  /** What a batch really writes. */
  function BatchBytes(env: S.Env, items: seq<S.Item>): nat {
    if items == [] then 0
    else
      var last := items[|items| - 1];
      BatchBytes(env, items[..|items| - 1]) + if last.key == [] then 0 else EntrySize(env, last.key, last.value)
  }

  lemma ItemGrows(env: S.Env, s: State, mid: State, size: nat, it: S.Item)
    requires mid.active in mid.files && GrownBy(s, mid, size)
    ensures var s' := S.BatchItem(env, mid, it);
      && s'.active == mid.active
      && GrownBy(s, s', size + if it.key == [] then 0 else EntrySize(env, it.key, it.value))
  {
    hide Serialize, Compress;
    if it.key != [] {
      var e := S.PutEntry(env, it.key, it.value, it.ts, 0);
      assert Size(e) == EntrySize(env, it.key, it.value) && |Serialize(e)| == Size(e);
    }
  }

  lemma {:induction false} ItemsGrow(env: S.Env, s: State, mid: State, items: seq<S.Item>)
    requires mid.active in mid.files && GrownBy(s, mid, 0)
    ensures var s' := S.BatchItems(env, mid, items);
      s'.active == mid.active && GrownBy(s, s', BatchBytes(env, items))
  {
    hide S.BatchItem, EntrySize;
    if items != [] {
      var init := items[..|items| - 1];
      ItemsGrow(env, s, mid, init);
      ItemGrows(env, s, S.BatchItems(env, mid, init), BatchBytes(env, init), items[|items| - 1]);
    }
  }

  /** A BatchPut goes to the next file as a whole if and only if it has something to write and the
      estimate would take the active file past the limit. */
  lemma BatchPutRotatesIff(env: S.Env, s: State, items: seq<S.Item>)
    requires FilesOk(s.files, s.active)
    ensures var s', size := S.BatchPut(env, s, items), Estimate(items);
      && s'.active == (if size > 0 && |s.files[s.active]| + size > env.maxFileSize then s.active + 1 else s.active)
      && GrownBy(s, s', BatchBytes(env, items))
  {
    hide S.BatchItems, Whole;
    BatchSizeIs(items);
    var size := S.BatchSize(items);
    var mid := if size > 0 then S.RotateFor(env, s, size) else s;
    assert GrownBy(s, mid, 0);
    ItemsGrow(env, s, mid, items);
  }

  // ---- the limit ----

  predicate Within(files: S.Files, limit: int) {
    forall id :: id in files ==> |files[id]| <= limit
  }

  /** A Put takes a file past the limit only with an entry that is too large for any file, and then alone. */
  lemma PutWithin(env: S.Env, s: State, key: Key, value: Bytes, ts: U32, deadline: U32, limit: int)
    requires FilesOk(s.files, s.active) && Within(s.files, limit) && env.maxFileSize <= limit
    ensures var s', size := S.Put(env, s, key, value, ts, deadline), EntrySize(env, key, value);
      Within(s'.files, limit) || (key != [] && size > limit && |s'.files[s'.active]| == size)
  {
    hide S.Put, EntrySize, Whole;
    if key == [] {
      PutNothing(env, s, value, ts, deadline);
    } else {
      PutRotatesIff(env, s, key, value, ts, deadline);
    }
  }

  lemma PutNothing(env: S.Env, s: State, value: Bytes, ts: U32, deadline: U32)
    ensures S.Put(env, s, [], value, ts, deadline) == s
  {
  }

  /** A BatchPut keeps the limit if its estimate fits a file and no value grows when it is compressed. */
  lemma BatchPutWithin(env: S.Env, s: State, items: seq<S.Item>, limit: int)
    requires FilesOk(s.files, s.active) && Within(s.files, limit) && env.maxFileSize <= limit
    requires Estimate(items) <= limit
    requires forall it :: it in items ==> |Compress(env.codec, env.compression, it.value).0| <= |it.value|
    ensures Within(S.BatchPut(env, s, items).files, limit)
  {
    hide S.BatchPut, Whole;
    BatchPutRotatesIff(env, s, items);
    NoMoreThanEstimated(env, items);
  }

  lemma {:induction false} NoMoreThanEstimated(env: S.Env, items: seq<S.Item>)
    requires forall it :: it in items ==> |Compress(env.codec, env.compression, it.value).0| <= |it.value|
    ensures BatchBytes(env, items) <= Estimate(items)
  {
    hide Compress;
    if items != [] {
      assert items[|items| - 1] in items;
      NoMoreThanEstimated(env, items[..|items| - 1]);
    }
  }

  /** Delete and expiry never open a new file: a tombstone goes behind a full one. */
  lemma DeleteGrows(env: S.Env, s: State, key: Key, ts: U32)
    requires key != [] && key in s.index && FilesOk(s.files, s.active)
    ensures var size := 19 + |key| % 0x1_0000 + |Compress(env.codec, env.compression, TOMBSTONE).0| % 0x1_0000_0000;
      && S.Delete(env, s, key, ts).active == s.active && GrownBy(s, S.Delete(env, s, key, ts), size)
      && (!s.index[key].deleted ==> S.Expire(env, s, key, ts) == S.Delete(env, s, key, ts))
  {
    hide Serialize, Compress, Whole;
    var e := S.TombstoneEntry(env, key, ts);
    assert |Serialize(e)| == Size(e);
  }

  /** The operations that keep the limit, given entries that fit. */
  predicate Keeps(env: S.Env, op: Op, limit: int) {
    match op
    case Put(key, value, _, _) => EntrySize(env, key, value) <= limit
    case BatchPut(items) =>
      && Estimate(items) <= limit
      && forall it :: it in items ==> |Compress(env.codec, env.compression, it.value).0| <= |it.value|
    case SetTTL(_, _) => true
    case Reopen => true
    case Snapshot(_) => true
    case _ => false
  }

  lemma StepWithin(env: S.Env, s: State, w: World, clock: U32, op: Op, limit: int)
    requires Represents(env, s, w, clock) && Within(s.files, limit) && env.maxFileSize <= limit && Keeps(env, op, limit)
    ensures Within(Step(env, s, op).files, limit)
  {
    hide S.Put, S.BatchPut, EntrySize, Estimate, IndexHolds, SnapHolds, S.Rebuild, S.ActiveAfterRebuild;
    match op
    case Put(key, value, ts, deadline) => PutWithin(env, s, key, value, ts, deadline, limit);
    case BatchPut(items) => BatchPutWithin(env, s, items, limit);
    case Reopen => ActiveIsMax(s.files, s.active);
    case SetTTL(_, _) =>
    case Snapshot(_) =>
  }

  /** In every run of them, no file grows past the larger of the limit and what it was before. */
  lemma {:induction false} RunWithin(env: S.Env, s: State, w: World, clock: U32, ops: seq<Op>, limit: int)
    requires EnvOk(env) && Represents(env, s, w, clock) && AllowedRun(env, s, ops, clock)
    requires Within(s.files, limit) && env.maxFileSize <= limit && forall op :: op in ops ==> Keeps(env, op, limit)
    ensures Within(Run(env, s, ops).files, limit)
    decreases |ops|
  {
    hide Keeps, Represents, Step;
    if ops != [] {
      assert ops[0] in ops && forall op :: op in ops[1..] ==> op in ops;
      StepWithin(env, s, w, clock, ops[0], limit);
      StepRepresents(env, s, w, clock, ops[0]);
      RunWithin(env, Step(env, s, ops[0]), Means(w, ops[0]), ClockAfter(ops[0], clock), ops[1..], limit);
    }
  }
}
