/** Each operation of the store does to its files and its index what the corresponding operation
    on a plain map does. */
module StoreSteps {
  import opened Bytes
  import opened Codec
  import opened Framing
  import opened Entry
  import opened Store
  import opened Simulation

  /** The plain map, and the plain maps that were snapshot. */
  datatype World = World(live: Live, snaps: map<nat, Live>)

  // ---- what the operations mean ----

  function Written(live: Live, key: Key, value: Bytes, deadline: U32): Live {
    if key == [] then live else live[key := Meaning(value, deadline, deadline)]
  }

  function WrittenAll(live: Live, items: seq<Item>): Live {
    if items == [] then live
    else
      var it := items[|items| - 1];
      Written(WrittenAll(live, items[..|items| - 1]), it.key, it.value, 0)
  }

  /** Only what the files say. */
  function Durable(live: Live): Live {
    map k | k in live :: live[k].(ttl := live[k].durable)
  }

  /** What a compaction at `now` keeps; it writes the expiries held in memory to the new file. */
  function Kept(live: Live, now: U32): Live {
    map k | k in live && (live[k].ttl == 0 || now <= live[k].ttl) :: live[k].(durable := live[k].ttl)
  }

  // ---- the state relation ----

  ghost predicate SnapHolds(env: Env, files: Files, live: Live, clock: U32) {
    files != map[] && Holds(env, files, ActiveAfterRebuild(files), Rebuild(env.codec, files), live, clock)
  }

  ghost predicate Represents(env: Env, s: Store, w: World, clock: U32) {
    && Holds(env, s.files, s.active, s.index, w.live, clock)
    && s.snaps.Keys == w.snaps.Keys
    && (forall id :: id in s.snaps ==> SnapHolds(env, s.snaps[id], w.snaps[id], clock))
  }

  function Reads(live: Live, key: Key, t: U32): Option<Bytes> {
    if key != [] && key in live && !Expired(live[key].ttl, t) then Some(live[key].value) else None
  }

  /** Agreement lets reads be answered from the plain map. */
  lemma GetFromMeaning(env: Env, s: Store, live: Live, clock: U32, key: Key, now: U32)
    requires Holds(env, s.files, s.active, s.index, live, clock)
    ensures Get(env.codec, s, key, now) == Reads(live, key, now)
  {
    assert KeyHolds(env, s.files, s.index, RebuildBelow(env.codec, s.files, s.active + 1), live, clock, key);
  }

  // ---- one lemma per operation ----

  lemma PutEntryFacts(env: Env, key: Key, value: Bytes, ts: U32, deadline: U32)
    requires Lawful(env.codec) && |key| < TWO16 && Storable(env, value)
    ensures var e := PutEntry(env, key, value, ts, deadline);
      && Sized(e) && VerifyCRC(env.codec, e) && e.key == key && e.timestamp == ts && e.ttl == deadline
      && Decompress(env.codec, e.value, e.compression) == Some(value) && !IsTombstone(env.codec, e)
  {
    var (z, ct) := Compress(env.codec, env.compression, value);
    SealVerifies(env.codec, ts, deadline, ct, key, z);
    CompressRoundTrip(env.codec, env.compression, value);
  }

  lemma WriteHolds(env: Env, s: Store, live: Live, clock: U32, key: Key, value: Bytes, ts: U32, deadline: U32,
                   clock': U32)
    requires Lawful(env.codec)
    requires Holds(env, s.files, s.active, s.index, live, clock)
    requires |key| < TWO16 && Storable(env, value)
    requires key in s.index ==> s.index[key].timestamp <= ts
    requires clock <= clock' && ts <= clock'
    ensures var s' := WriteEntry(s, key, PutEntry(env, key, value, ts, deadline));
      Holds(env, s'.files, s'.active, s'.index, live[key := Meaning(value, deadline, deadline)], clock')
  {
    hide IndexHolds, Serialize, CrcInput, Compress, Decompress, PutEntry, Storable;
    var e := PutEntry(env, key, value, ts, deadline);
    PutEntryFacts(env, key, value, ts, deadline);
    var s' := WriteEntry(s, key, e);
    AppendHolds(env, s.files, s.active, s.index, live, clock, e, s'.index,
                live[key := Meaning(value, deadline, deadline)], clock');
  }

  lemma TombstoneFacts(env: Env, key: Key, ts: U32)
    requires Lawful(env.codec) && |key| < TWO16
    requires |Compress(env.codec, env.compression, TOMBSTONE).0| < TWO32
    ensures var e := TombstoneEntry(env, key, ts);
      Sized(e) && VerifyCRC(env.codec, e) && IsTombstone(env.codec, e) && e.key == key && e.timestamp == ts
  {
    SealVerifies(env.codec, ts, 0, env.compression, key, Compress(env.codec, env.compression, TOMBSTONE).0);
    TombstoneDecodes(env.codec, env.compression);
  }

  lemma BuryHolds(env: Env, s: Store, live: Live, clock: U32, key: Key, ts: U32, clock': U32)
    requires Lawful(env.codec)
    requires Holds(env, s.files, s.active, s.index, live, clock)
    requires key in s.index && s.index[key].timestamp <= ts
    requires |Compress(env.codec, env.compression, TOMBSTONE).0| < TWO32
    requires clock <= clock' && ts <= clock'
    ensures var s' := Bury(env, s, key, ts);
      Holds(env, s'.files, s'.active, s'.index, live - {key}, clock')
  {
    assert |key| < TWO16 by {
      assert KeyHolds(env, s.files, s.index, RebuildBelow(env.codec, s.files, s.active + 1), live, clock, key);
    }
    TombstoneFacts(env, key, ts);
    var e := TombstoneEntry(env, key, ts);
    AppendHolds(env, s.files, s.active, s.index, live, clock, e, Bury(env, s, key, ts).index, live - {key}, clock');
  }

  lemma ReadIgnoresTTL(c: Codec, files: Files, kd: KeyDir, ttl: U32)
    ensures ReadValue(c, files, kd.(ttl := ttl)) == ReadValue(c, files, kd)
  {
  }

  lemma SetTTLHolds(env: Env, s: Store, live: Live, clock: U32, key: Key, deadline: U32)
    requires Holds(env, s.files, s.active, s.index, live, clock)
    ensures var s' := SetTTL(s, key, deadline);
      Holds(env, s'.files, s'.active, s'.index,
            if key in live then live[key := live[key].(ttl := deadline)] else live, clock)
  {
    hide ReadValue, RebuildBelow, Storable, Whole;
    var s' := SetTTL(s, key, deadline);
    var rebuilt := RebuildBelow(env.codec, s.files, s.active + 1);
    var live' := if key in live then live[key := live[key].(ttl := deadline)] else live;
    assert KeyHolds(env, s.files, s.index, rebuilt, live, clock, key);
    forall k: Key ensures KeyHolds(env, s'.files, s'.index, rebuilt, live', clock, k) {
      assert KeyHolds(env, s.files, s.index, rebuilt, live, clock, k);
      if k in s.index {
        ReadIgnoresTTL(env.codec, s.files, s.index[k], deadline);
      }
    }
  }

  lemma ActiveIsMax(files: Files, active: nat)
    requires FilesOk(files, active)
    ensures ActiveAfterRebuild(files) == active
    ensures files[active := Contents(files, active)] == files
  {
    assert IsMax(files.Keys, active);
  }

  /** The rebuilt index has the meaning the files have. */
  lemma RebuiltHolds(env: Env, files: Files, active: nat, index: Index, live: Live, clock: U32)
    requires Holds(env, files, active, index, live, clock)
    ensures ActiveAfterRebuild(files) == active
    ensures Holds(env, files, active, Rebuild(env.codec, files), Durable(live), clock)
  {
    ActiveIsMax(files, active);
    var rebuilt := RebuildBelow(env.codec, files, active + 1);
    forall k: Key ensures KeyHolds(env, files, rebuilt, rebuilt, Durable(live), clock, k) {
      assert KeyHolds(env, files, index, rebuilt, live, clock, k);
    }
  }

  // ---- compaction ----

  /** What the keys compacted so far mean. */
  function KeptSoFar(live: Live, keys: seq<Key>): Live
    requires forall k :: k in keys ==> k in live
  {
    map k | k in keys :: live[k].(durable := live[k].ttl)
  }

  lemma CompactKeyHolds(env: Env, s: Store, live: Live, clock: U32, done: Store, doneLive: Live, key: Key)
    requires Lawful(env.codec)
    requires Holds(env, s.files, s.active, s.index, live, clock)
    requires key in live && key in s.index && key !in done.index
    requires Holds(env, done.files, done.active, done.index, doneLive, clock)
    ensures var done' := CompactKey(env, s, done, key);
      && Holds(env, done'.files, done'.active, done'.index, doneLive[key := live[key].(durable := live[key].ttl)],
          clock)
      && done'.index.Keys == done.index.Keys + {key}
  {
    assert KeyHolds(env, s.files, s.index, RebuildBelow(env.codec, s.files, s.active + 1), live, clock, key);
    var kd, value := s.index[key], live[key].value;
    assert CompactKey(env, s, done, key) == WriteEntry(done, key, PutEntry(env, key, value, kd.timestamp, kd.ttl));
    WriteHolds(env, done, doneLive, clock, key, value, kd.timestamp, kd.ttl, clock);
  }

  lemma EmptyFileHolds(env: Env, clock: U32)
    ensures Holds(env, map[1 := []], 1, map[], map[], clock)
  {
    var files: Files := map[1 := []];
    assert ScanFile([]) == [];
    assert RebuildBelow(env.codec, files, 1) == RebuildBelow(env.codec, files, 0) == map[];
    assert RebuildBelow(env.codec, files, 2) == map[];
    forall k: Key ensures KeyHolds(env, files, map[], map[], map[], clock, k) {
    }
  }

  ghost predicate CompactedSoFar(env: Env, live: Live, clock: U32, keys: seq<Key>, done: Store)
    requires forall k :: k in keys ==> k in live
  {
    && Holds(env, done.files, done.active, done.index, KeptSoFar(live, keys), clock)
    && done.index.Keys == set k | k in keys
  }

  lemma {:induction false} CompactKeysHolds(env: Env, s: Store, live: Live, clock: U32, keys: seq<Key>)
    requires Lawful(env.codec)
    requires Holds(env, s.files, s.active, s.index, live, clock)
    requires forall k :: k in keys ==> k in live && k in s.index
    requires forall i, j :: 0 <= i < j < |keys| ==> keys[i] != keys[j]
    ensures CompactedSoFar(env, live, clock, keys, CompactKeys(env, s, keys))
  {
    if keys == [] {
      EmptyFileHolds(env, clock);
      assert KeptSoFar(live, keys) == map[];
    } else {
      var init, last := keys[..|keys| - 1], keys[|keys| - 1];
      assert keys == init + [last];
      CompactKeysHolds(env, s, live, clock, init);
      CompactStep(env, s, live, clock, init, CompactKeys(env, s, init), last);
    }
  }

  lemma CompactStep(env: Env, s: Store, live: Live, clock: U32, init: seq<Key>, done: Store, last: Key)
    requires Lawful(env.codec)
    requires Holds(env, s.files, s.active, s.index, live, clock)
    requires forall k :: k in init ==> k in live && k in s.index
    requires last in live && last in s.index && last !in init
    requires CompactedSoFar(env, live, clock, init, done)
    ensures CompactedSoFar(env, live, clock, init + [last], CompactKey(env, s, done, last))
  {
    CompactKeyHolds(env, s, live, clock, done, KeptSoFar(live, init), last);
    KeptAppend(live, init, last);
  }

  lemma KeptAppend(live: Live, init: seq<Key>, last: Key)
    requires last in live && forall k :: k in init ==> k in live
    ensures KeptSoFar(live, init + [last]) == KeptSoFar(live, init)[last := live[last].(durable := live[last].ttl)]
    ensures (set k | k in init + [last]) == (set k | k in init) + {last}
  {
  }

  /** Compaction in any order of the kept keys: one file, every kept key once, the same values. */
  lemma CompactHolds(env: Env, s: Store, live: Live, clock: U32, order: seq<Key>, now: U32)
    requires Lawful(env.codec)
    requires Holds(env, s.files, s.active, s.index, live, clock)
    requires Enumerates(order, s.index, now)
    ensures var s' := Compact(env, s, order);
      Holds(env, s'.files, s'.active, s'.index, Kept(live, now), clock)
  {
    var rebuilt := RebuildBelow(env.codec, s.files, s.active + 1);
    forall k: Key ensures k in order <==> k in Kept(live, now) {
      assert KeyHolds(env, s.files, s.index, rebuilt, live, clock, k);
    }
    assert forall k :: k in order ==> k in Kept(live, now) && k in live;
    CompactKeysHolds(env, s, live, clock, order);
    assert KeptSoFar(live, order) == Kept(live, now);
  }
}
