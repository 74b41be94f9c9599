/** Whole runs of the store, and what they guarantee: recovery, compaction and snapshots. */
module StoreRuns {
  import opened Bytes
  import opened Codec
  import opened Entry
  import S = Store
  import opened Simulation
  import opened StoreSteps

  type State = S.Store
  type Key = S.Key

  datatype Op =
    | Put(key: Key, value: Bytes, ts: U32, deadline: U32)
    | BatchPut(items: seq<S.Item>)
    | Delete(key: Key, ts: U32)
    | Expire(key: Key, ts: U32)
    | SetTTL(key: Key, deadline: U32)
    | Compact(order: seq<Key>, now: U32)
    | Reopen
    | Snapshot(id: nat)
    | Restore(id: nat)

  ghost function Step(env: S.Env, s: State, op: Op): State {
    match op
    case Put(key, value, ts, deadline) => S.Put(env, s, key, value, ts, deadline)
    case BatchPut(items) => S.BatchPut(env, s, items)
    case Delete(key, ts) => S.Delete(env, s, key, ts)
    case Expire(key, ts) => S.Expire(env, s, key, ts)
    case SetTTL(key, deadline) => S.SetTTL(s, key, deadline)
    case Compact(order, now) => if S.Enumerates(order, s.index, now) then S.Compact(env, s, order) else s
    case Reopen => S.Load(env.codec, s.files, s.snaps)
    case Snapshot(id) => S.CreateSnapshot(s, id)
    case Restore(id) => S.RestoreFromSnapshot(env.codec, s, id)
  }

  /** The same operation on plain maps. */
  function Means(w: World, op: Op): World {
    match op
    case Put(key, value, _, deadline) => w.(live := Written(w.live, key, value, deadline))
    case BatchPut(items) => w.(live := WrittenAll(w.live, items))
    case Delete(key, _) => w.(live := if key == [] then w.live else w.live - {key})
    case Expire(key, _) => w.(live := w.live - {key})
    case SetTTL(key, deadline) =>
      if key in w.live then w.(live := w.live[key := w.live[key].(ttl := deadline)]) else w
    case Compact(_, now) => w.(live := Kept(w.live, now))
    case Reopen => w.(live := Durable(w.live))
    case Snapshot(id) => w.(snaps := w.snaps[id := Durable(w.live)])
    case Restore(id) => if id in w.snaps then w.(live := w.snaps[id]) else w
  }

  // ---- the side conditions ----

  ghost predicate EnvOk(env: S.Env) {
    Lawful(env.codec) && |Compress(env.codec, env.compression, TOMBSTONE).0| < TWO32
  }

  predicate ItemOk(env: S.Env, key: Key, value: Bytes) {
    |key| < TWO16 && Storable(env, value)
  }

  predicate ItemsOk(env: S.Env, items: seq<S.Item>, clock: U32) {
    && (forall it :: it in items ==> ItemOk(env, it.key, it.value) && clock <= it.ts)
    && (forall i, j :: 0 <= i < j < |items| ==> items[i].ts <= items[j].ts)
  }

  /** Keys and values fit their fields, and the clock does not go backwards. */
  predicate Allowed(env: S.Env, s: State, op: Op, clock: U32) {
    match op
    case Put(key, value, ts, _) => ItemOk(env, key, value) && clock <= ts
    case BatchPut(items) => ItemsOk(env, items, clock)
    case Delete(_, ts) => clock <= ts
    case Expire(_, ts) => clock <= ts
    case Compact(order, now) => S.Enumerates(order, s.index, now)
    case _ => true
  }

  function BatchClock(items: seq<S.Item>, clock: U32): U32 {
    if items == [] then clock else items[|items| - 1].ts
  }

  function ClockAfter(op: Op, clock: U32): U32 {
    match op
    case Put(_, _, ts, _) => ts
    case BatchPut(items) => BatchClock(items, clock)
    case Delete(_, ts) => ts
    case Expire(_, ts) => ts
    case _ => clock
  }

  // ---- one step ----

  ghost predicate StateHolds(env: S.Env, s: State, live: Live, clock: U32) {
    Holds(env, s.files, s.active, s.index, live, clock)
  }

  lemma RotateForHolds(env: S.Env, s: State, live: Live, clock: U32, size: nat)
    requires StateHolds(env, s, live, clock)
    ensures StateHolds(env, S.RotateFor(env, s, size), live, clock)
  {
    RotateHolds(env, s, live, clock);
  }

  /** The clock bounds every timestamp in the index. */
  lemma TimestampBound(env: S.Env, s: State, live: Live, clock: U32, key: Key)
    requires StateHolds(env, s, live, clock)
    ensures key in s.index ==> s.index[key].timestamp <= clock
  {
    assert KeyHolds(env, s.files, s.index, S.RebuildBelow(env.codec, s.files, s.active + 1), live, clock, key);
  }

  lemma PutHolds(env: S.Env, s: State, live: Live, clock: U32, key: Key, value: Bytes, ts: U32, deadline: U32)
    requires EnvOk(env) && StateHolds(env, s, live, clock)
    requires ItemOk(env, key, value) && clock <= ts
    ensures StateHolds(env, S.Put(env, s, key, value, ts, deadline), Written(live, key, value, deadline), ts)
  {
    if key == [] {
      ClockHolds(env, s.files, s.active, s.index, live, clock, ts);
    } else {
      var size := Size(S.PutEntry(env, key, value, ts, deadline));
      RotateForHolds(env, s, live, clock, size);
      TimestampBound(env, s, live, clock, key);
      WriteHolds(env, S.RotateFor(env, s, size), live, clock, key, value, ts, deadline, ts);
    }
  }

  lemma {:induction false} BatchItemsHold(env: S.Env, s: State, live: Live, clock: U32, items: seq<S.Item>)
    requires EnvOk(env) && StateHolds(env, s, live, clock) && ItemsOk(env, items, clock)
    ensures StateHolds(env, S.BatchItems(env, s, items), WrittenAll(live, items), BatchClock(items, clock))
  {
    if items != [] {
      var init, it := items[..|items| - 1], items[|items| - 1];
      BatchItemsHold(env, s, live, clock, init);
      BatchItemHolds(env, S.BatchItems(env, s, init), WrittenAll(live, init), BatchClock(init, clock), it);
    }
  }

  lemma BatchItemHolds(env: S.Env, s: State, live: Live, clock: U32, it: S.Item)
    requires EnvOk(env) && StateHolds(env, s, live, clock) && ItemOk(env, it.key, it.value) && clock <= it.ts
    ensures StateHolds(env, S.BatchItem(env, s, it), Written(live, it.key, it.value, 0), it.ts)
  {
    if it.key == [] {
      ClockHolds(env, s.files, s.active, s.index, live, clock, it.ts);
    } else {
      TimestampBound(env, s, live, clock, it.key);
      WriteHolds(env, s, live, clock, it.key, it.value, it.ts, 0, it.ts);
    }
  }

  lemma BatchPutHolds(env: S.Env, s: State, live: Live, clock: U32, items: seq<S.Item>)
    requires EnvOk(env) && StateHolds(env, s, live, clock) && ItemsOk(env, items, clock)
    ensures StateHolds(env, S.BatchPut(env, s, items), WrittenAll(live, items), BatchClock(items, clock))
  {
    var size := S.BatchSize(items);
    RotateForHolds(env, s, live, clock, size);
    BatchItemsHold(env, if size > 0 then S.RotateFor(env, s, size) else s, live, clock, items);
  }

  /** Delete and expiry; a key the index has already marked deleted has no meaning to remove. */
  lemma DeleteHolds(env: S.Env, s: State, live: Live, clock: U32, key: Key, ts: U32)
    requires EnvOk(env) && StateHolds(env, s, live, clock) && clock <= ts
    ensures key != [] ==> StateHolds(env, S.Delete(env, s, key, ts), live - {key}, ts)
    ensures StateHolds(env, S.Expire(env, s, key, ts), live - {key}, ts)
    ensures StateHolds(env, s, live, ts)
  {
    ClockHolds(env, s.files, s.active, s.index, live, clock, ts);
    TimestampBound(env, s, live, clock, key);
    assert KeyHolds(env, s.files, s.index, S.RebuildBelow(env.codec, s.files, s.active + 1), live, clock, key);
    assert key !in live ==> live - {key} == live;
    if key in s.index {
      BuryHolds(env, s, live, clock, key, ts, ts);
    }
  }

  lemma ReopenHolds(env: S.Env, files: S.Files, active: nat, index: S.Index, live: Live, clock: U32,
                    snaps: map<nat, S.Files>)
    requires Holds(env, files, active, index, live, clock)
    ensures StateHolds(env, S.Load(env.codec, files, snaps), Durable(live), clock)
  {
    RebuiltHolds(env, files, active, index, live, clock);
    ActiveIsMax(files, active);
  }

  lemma SnapClock(env: S.Env, files: S.Files, live: Live, clock: U32, clock': U32)
    requires SnapHolds(env, files, live, clock) && clock <= clock'
    ensures SnapHolds(env, files, live, clock')
  {
    ClockHolds(env, files, S.ActiveAfterRebuild(files), S.Rebuild(env.codec, files), live, clock, clock');
  }

  /** In a freshly rebuilt index every expiry is the one in the file. */
  lemma SnapIsDurable(env: S.Env, files: S.Files, live: Live, clock: U32)
    requires SnapHolds(env, files, live, clock)
    ensures Durable(live) == live
  {
    var index := S.Rebuild(env.codec, files);
    forall k | k in live ensures live[k].ttl == live[k].durable {
      assert KeyHolds(env, files, index, S.RebuildBelow(env.codec, files, S.ActiveAfterRebuild(files) + 1), live,
          clock, k);
    }
  }

  /** The operations that touch neither files' directory nor snapshots: the data part. */
  lemma LiveStep(env: S.Env, s: State, w: World, clock: U32, op: Op)
    requires EnvOk(env) && Represents(env, s, w, clock) && Allowed(env, s, op, clock)
    ensures StateHolds(env, Step(env, s, op), Means(w, op).live, ClockAfter(op, clock))
  {
    match op
    case Put(key, value, ts, deadline) => PutHolds(env, s, w.live, clock, key, value, ts, deadline);
    case BatchPut(items) => BatchPutHolds(env, s, w.live, clock, items);
    case Delete(key, ts) => DeleteHolds(env, s, w.live, clock, key, ts);
    case Expire(key, ts) => DeleteHolds(env, s, w.live, clock, key, ts);
    case SetTTL(key, deadline) => SetTTLHolds(env, s, w.live, clock, key, deadline);
    case Compact(order, now) => CompactHolds(env, s, w.live, clock, order, now);
    case Reopen => ReopenHolds(env, s.files, s.active, s.index, w.live, clock, s.snaps);
    case Snapshot(_) =>
    case Restore(id) => RestoreStep(env, s, w, clock, id);
  }

  lemma SnapLoads(env: S.Env, files: S.Files, live: Live, clock: U32, snaps: map<nat, S.Files>)
    requires SnapHolds(env, files, live, clock)
    ensures StateHolds(env, S.Load(env.codec, files, snaps), live, clock)
  {
    SnapIsDurable(env, files, live, clock);
    ReopenHolds(env, files, S.ActiveAfterRebuild(files), S.Rebuild(env.codec, files), live, clock, snaps);
  }

  lemma RestoreStep(env: S.Env, s: State, w: World, clock: U32, id: nat)
    requires Represents(env, s, w, clock)
    ensures StateHolds(env, S.RestoreFromSnapshot(env.codec, s, id), Means(w, Restore(id)).live, clock)
  {
    hide S.Load, SnapHolds, Holds;
    if id in s.snaps {
      SnapLoads(env, s.snaps[id], w.snaps[id], clock, s.snaps);
    }
  }

  lemma ClockAdvances(env: S.Env, s: State, op: Op, clock: U32)
    requires Allowed(env, s, op, clock)
    ensures clock <= ClockAfter(op, clock)
  {
    if op.BatchPut? && op.items != [] {
      assert op.items[|op.items| - 1] in op.items;
    }
  }

  lemma {:induction false} CompactKeepsSnaps(env: S.Env, s: State, keys: seq<Key>)
    requires forall k :: k in keys ==> k in s.index
    ensures S.CompactKeys(env, s, keys).snaps == s.snaps
  {
    if keys != [] {
      CompactKeepsSnaps(env, s, keys[..|keys| - 1]);
    }
  }

  lemma {:induction false} BatchKeepsSnaps(env: S.Env, s: State, items: seq<S.Item>)
    ensures S.BatchItems(env, s, items).snaps == s.snaps
  {
    if items != [] {
      BatchKeepsSnaps(env, s, items[..|items| - 1]);
    }
  }

  /** Only CreateSnapshot touches the snapshot directory. */
  lemma SnapsStep(env: S.Env, s: State, op: Op)
    ensures Step(env, s, op).snaps == if op.Snapshot? then s.snaps[op.id := s.files] else s.snaps
  {
    match op
    case BatchPut(items) =>
      var size := S.BatchSize(items);
      BatchKeepsSnaps(env, if size > 0 then S.RotateFor(env, s, size) else s, items);
    case Compact(order, now) =>
      if S.Enumerates(order, s.index, now) {
        CompactKeepsSnaps(env, s, order);
      }
    case _ =>
  }

  /** The files of a reachable state make a snapshot of their durable meaning. */
  lemma FreshSnap(env: S.Env, files: S.Files, active: nat, index: S.Index, live: Live, clock: U32)
    requires Holds(env, files, active, index, live, clock)
    ensures SnapHolds(env, files, Durable(live), clock)
  {
    RebuiltHolds(env, files, active, index, live, clock);
    assert active in files;
  }

  ghost predicate SnapsHold(env: S.Env, snaps: map<nat, S.Files>, lives: map<nat, Live>, clock: U32) {
    snaps.Keys == lives.Keys && forall id :: id in snaps ==> SnapHolds(env, snaps[id], lives[id], clock)
  }

  lemma SnapsClock(env: S.Env, snaps: map<nat, S.Files>, lives: map<nat, Live>, clock: U32, clock': U32)
    requires SnapsHold(env, snaps, lives, clock) && clock <= clock'
    ensures SnapsHold(env, snaps, lives, clock')
  {
    forall id | id in snaps ensures SnapHolds(env, snaps[id], lives[id], clock') {
      SnapClock(env, snaps[id], lives[id], clock, clock');
    }
  }

  lemma SnapsAdd(env: S.Env, snaps: map<nat, S.Files>, lives: map<nat, Live>, clock: U32,
                 id: nat, files: S.Files, live: Live)
    requires SnapsHold(env, snaps, lives, clock) && SnapHolds(env, files, live, clock)
    ensures SnapsHold(env, snaps[id := files], lives[id := live], clock)
  {
    hide SnapHolds;
    var snaps', lives' := snaps[id := files], lives[id := live];
    forall i | i in snaps' ensures SnapHolds(env, snaps'[i], lives'[i], clock) {
      if i == id {
        SnapSame(env, files, snaps'[i], live, lives'[i], clock);
      } else {
        SnapSame(env, snaps[i], snaps'[i], lives[i], lives'[i], clock);
      }
    }
  }

  lemma SnapSame(env: S.Env, files: S.Files, files': S.Files, live: Live, live': Live, clock: U32)
    requires SnapHolds(env, files, live, clock) && files == files' && live == live'
    ensures SnapHolds(env, files', live', clock)
  {
  }

  lemma MeansSnaps(w: World, op: Op)
    ensures Means(w, op).snaps == if op.Snapshot? then w.snaps[op.id := Durable(w.live)] else w.snaps
  {
  }

  lemma SnapsStepHold(env: S.Env, s: State, w: World, clock: U32, op: Op, clock': U32)
    requires Represents(env, s, w, clock) && clock <= clock'
    ensures SnapsHold(env, Step(env, s, op).snaps, Means(w, op).snaps, clock')
  {
    SnapsStep(env, s, op);
    MeansSnaps(w, op);
    SnapsClock(env, s.snaps, w.snaps, clock, clock');
    if op.Snapshot? {
      FreshSnap(env, s.files, s.active, s.index, w.live, clock);
      SnapClock(env, s.files, Durable(w.live), clock, clock');
      SnapsAdd(env, s.snaps, w.snaps, clock', op.id, s.files, Durable(w.live));
    }
  }

  /** One step of the store is one step of the plain map. */
  lemma StepRepresents(env: S.Env, s: State, w: World, clock: U32, op: Op)
    requires EnvOk(env) && Represents(env, s, w, clock) && Allowed(env, s, op, clock)
    ensures Represents(env, Step(env, s, op), Means(w, op), ClockAfter(op, clock))
  {
    ClockAdvances(env, s, op, clock);
    LiveStep(env, s, w, clock, op);
    SnapsStepHold(env, s, w, clock, op, ClockAfter(op, clock));
  }

  // ---- whole runs ----

  ghost function Run(env: S.Env, s: State, ops: seq<Op>): State
    decreases |ops|
  {
    if ops == [] then s else Run(env, Step(env, s, ops[0]), ops[1..])
  }

  function RunMeans(w: World, ops: seq<Op>): World
    decreases |ops|
  {
    if ops == [] then w else RunMeans(Means(w, ops[0]), ops[1..])
  }

  ghost predicate AllowedRun(env: S.Env, s: State, ops: seq<Op>, clock: U32)
    decreases |ops|
  {
    ops != [] ==>
      && Allowed(env, s, ops[0], clock)
      && AllowedRun(env, Step(env, s, ops[0]), ops[1..], ClockAfter(ops[0], clock))
  }

  function RunClock(ops: seq<Op>, clock: U32): U32
    decreases |ops|
  {
    if ops == [] then clock else RunClock(ops[1..], ClockAfter(ops[0], clock))
  }

  /** Every run of the store, compactions, reopenings, snapshots and restores included, has
      the meaning of the same run on a plain map. */
  lemma {:induction false} RunRepresents(env: S.Env, s: State, w: World, clock: U32, ops: seq<Op>)
    requires EnvOk(env) && Represents(env, s, w, clock) && AllowedRun(env, s, ops, clock)
    ensures Represents(env, Run(env, s, ops), RunMeans(w, ops), RunClock(ops, clock))
    decreases |ops|
  {
    if ops != [] {
      StepRepresents(env, s, w, clock, ops[0]);
      RunRepresents(env, Step(env, s, ops[0]), Means(w, ops[0]), ClockAfter(ops[0], clock), ops[1..]);
    }
  }

  /** A new database starts in that relation, so every reachable state is in it. */
  lemma StartRepresents(env: S.Env, clock: U32)
    ensures Represents(env, S.Load(env.codec, map[], map[]), World(map[], map[]), clock)
  {
    EmptyFileHolds(env, clock);
    assert S.RebuildBelow(env.codec, map[], 2) == map[] by {
      assert S.RebuildBelow(env.codec, map[], 1) == S.RebuildBelow(env.codec, map[], 0);
    }
  }

  // ---- recovery ----

  lemma RecoveredKey(env: S.Env, s: State, w: World, clock: U32, k: Key)
    requires Represents(env, s, w, clock)
    ensures S.Rebuild(env.codec, s.files) == S.RebuildBelow(env.codec, s.files, s.active + 1)
    ensures KeyHolds(env, s.files, s.index, S.Rebuild(env.codec, s.files), w.live, clock, k)
  {
    ActiveIsMax(s.files, s.active);
  }

  /** What a rebuilt index owes the index in memory about one key. */
  predicate Recovers(env: S.Env, s: State, live: Live, rebuilt: S.Index, k: Key) {
    && (k in rebuilt <==> k in s.index)
    && (k in rebuilt ==>
      rebuilt[k].deleted == s.index[k].deleted && rebuilt[k].timestamp == s.index[k].timestamp)
    && (k in rebuilt && !rebuilt[k].deleted ==>
      && k in live
      && rebuilt[k] == s.index[k].(ttl := live[k].durable)
      && S.ReadValue(env.codec, s.files, rebuilt[k]) == Some(live[k].value)
      && (rebuilt[k] == s.index[k] <==> live[k].ttl == live[k].durable))
  }

  /** Recovery equals memory: in any reachable state a rebuild finds the same keys, the same
      deletions and timestamps, and for live keys the same record but for the expiry, which is the
      one last written to a file. It is the very same record unless a SetTTL is still only in memory. */
  lemma RecoveryEqualsMemory(env: S.Env, s: State, w: World, clock: U32)
    requires Represents(env, s, w, clock)
    ensures forall k: Key :: Recovers(env, s, w.live, S.Rebuild(env.codec, s.files), k)
  {
    var rebuilt := S.Rebuild(env.codec, s.files);
    forall k: Key ensures Recovers(env, s, w.live, rebuilt, k) {
      RecoveredKey(env, s, w, clock, k);
    }
  }

  /** Whether a rebuild agrees with the index about one key, expiry included. */
  predicate AgreesOn(index: S.Index, rebuilt: S.Index, k: Key) {
    && (k in index && !index[k].deleted <==> k in rebuilt && !rebuilt[k].deleted)
    && (k in index && !index[k].deleted ==> rebuilt[k] == index[k])
  }
}
