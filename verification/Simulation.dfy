/** The store refines a plain map, and its files always hold what its index says. */
module Simulation {
  import opened Bytes
  import opened Codec
  import opened Framing
  import opened Entry
  import opened Store

  /** What a key means: its value, its expiry in memory, and the expiry its file entry carries
      (SetTTL changes only the former). */
  datatype Meaning = Meaning(value: Bytes, ttl: U32, durable: U32)
  type Live = map<Key, Meaning>

  /** A value the store can hold and a rebuild will not mistake for a deletion. */
  predicate Storable(env: Env, value: Bytes) {
    value != TOMBSTONE && |Compress(env.codec, env.compression, value).0| < TWO32
  }

  /** Every file is whole entries; the active file exists and has the highest id. */
  predicate FilesOk(files: Files, active: nat) {
    && active in files
    && (forall id :: id in files ==> id <= active && Whole(files[id]))
  }

  /** For one key: the index, the rebuilt index and the meaning agree. A key that is live has
      one and the same record in both indexes, up to the expiry held in memory, and that record
      points at bytes that decompress to the key's value. */
  predicate KeyHolds(env: Env, files: Files, index: Index, rebuilt: Index, live: Live, clock: U32, k: Key) {
    && (k in index <==> k in rebuilt)
    && (k in live <==> k in index && !index[k].deleted)
    && (k in index ==>
      && |k| < TWO16
      && index[k].timestamp == rebuilt[k].timestamp <= clock
      && index[k].deleted == rebuilt[k].deleted)
    && (k in live ==>
      && index[k] == rebuilt[k].(ttl := index[k].ttl)
      && ReadValue(env.codec, files, index[k]) == Some(live[k].value)
      && Storable(env, live[k].value)
      && index[k].ttl == live[k].ttl
      && rebuilt[k].ttl == live[k].durable)
  }

  ghost predicate IndexHolds(env: Env, files: Files, index: Index, rebuilt: Index, live: Live, clock: U32) {
    forall k: Key :: KeyHolds(env, files, index, rebuilt, live, clock, k)
  }

  ghost predicate Holds(env: Env, files: Files, active: nat, index: Index, live: Live, clock: U32) {
    && FilesOk(files, active)
    && IndexHolds(env, files, index, RebuildBelow(env.codec, files, active + 1), live, clock)
  }

  // ---- how rebuilding reacts to one appended entry ----

  lemma {:induction false} RebuildBelowDependsBelow(c: Codec, files: Files, files': Files, n: nat)
    requires forall id :: id < n ==> (id in files <==> id in files')
    requires forall id :: id < n && id in files ==> files[id] == files'[id]
    ensures RebuildBelow(c, files, n) == RebuildBelow(c, files', n)
  {
    if n > 0 {
      RebuildBelowDependsBelow(c, files, files', n - 1);
    }
  }

  /** Appending to the highest file is, to a rebuild, one more entry at the end. */
  lemma RebuildAppend(c: Codec, files: Files, active: nat, e: Entry)
    requires FilesOk(files, active)
    ensures var b := files[active];
      var files' := files[active := b + Serialize(e)];
      && FilesOk(files', active)
      && RebuildBelow(c, files', active + 1)
         == ApplyEntry(c, RebuildBelow(c, files, active + 1), active, Located(|b|, Stored(e)))
  {
    var b := files[active];
    var files' := files[active := b + Serialize(e)];
    AppendEntry(b, e);
    RebuildBelowDependsBelow(c, files, files', active);
    ReplayStep(c, RebuildBelow(c, files, active), active, ScanFile(b), Located(|b|, Stored(e)));
  }

  /** A value stays readable when files only grow. */
  predicate Grows(files: Files, files': Files) {
    forall id :: id in files ==> id in files' && files[id] <= files'[id]
  }

  lemma ReadGrows(c: Codec, files: Files, files': Files, kd: KeyDir)
    requires Grows(files, files') && ReadValue(c, files, kd).Some?
    ensures ReadValue(c, files', kd) == ReadValue(c, files, kd)
  {
    assert files[kd.fileID][kd.valuePos..kd.valuePos + kd.valueSize]
        == files'[kd.fileID][kd.valuePos..kd.valuePos + kd.valueSize];
  }

  lemma SameBytes(files: Files, a: KeyDir, b: KeyDir)
    requires a.fileID == b.fileID && a.valuePos == b.valuePos && a.valueSize == b.valueSize
    ensures ReadAt(files, a) == ReadAt(files, b)
  {
  }

  /** The bytes an entry's record points at are the entry's value. */
  lemma ReadAppended(c: Codec, files: Files, id: nat, b: Bytes, e: Entry)
    requires Sized(e) && id in files && files[id] == b + Serialize(e)
    ensures ReadAt(files, Pointer(c, id, |b|, e)) == Some(e.value)
  {
    var at := |b| + HEADER_SIZE + e.keySize;
    assert files[id] == b + Header(e) + e.key + e.value;
    assert files[id][at..at + e.valueSize] == e.value;
  }

  // ---- one appended entry keeps everything ----

  /** What an entry at the end of the active file makes of the index and of the meaning. */
  predicate Effect(env: Env, p: KeyDir, e: Entry, index: Index, live: Live, index': Index, live': Live) {
    if p.deleted then
      && e.key in index
      && index' == index[e.key := index[e.key].(deleted := true, timestamp := e.timestamp)]
      && live' == live - {e.key}
    else
      && var v := Decompress(env.codec, e.value, e.compression);
      && v.Some? && Storable(env, v.value)
      && index' == index[e.key := p]
      && live' == live[e.key := Meaning(v.value, e.ttl, e.ttl)]
  }

  lemma KeyAppend(env: Env, files: Files, active: nat, index: Index, rebuilt: Index, live: Live, clock: U32,
                  e: Entry, index': Index, live': Live, clock': U32, k: Key)
    requires active in files && Sized(e)
    requires KeyHolds(env, files, index, rebuilt, live, clock, k)
    requires clock <= clock' && e.timestamp <= clock'
    requires var p := Pointer(env.codec, active, |files[active]|, e); Effect(env, p, e, index, live, index', live')
    ensures var b := files[active];
      KeyHolds(env, files[active := b + Serialize(e)], index',
               rebuilt[e.key := Pointer(env.codec, active, |b|, e)], live', clock', k)
  {
    var b := files[active];
    var files' := files[active := b + Serialize(e)];
    if k == e.key {
      ReadAppended(env.codec, files', active, b, e);
    } else if k in live {
      ReadGrows(env.codec, files, files', index[k]);
    }
  }

  /** Appending an entry no older than its key's record keeps index, files and meaning together. */
  lemma AppendHolds(env: Env, files: Files, active: nat, index: Index, live: Live, clock: U32,
                    e: Entry, index': Index, live': Live, clock': U32)
    requires Holds(env, files, active, index, live, clock)
    requires Sized(e) && VerifyCRC(env.codec, e)
    requires e.key in index ==> index[e.key].timestamp <= e.timestamp
    requires clock <= clock' && e.timestamp <= clock'
    requires Effect(env, Pointer(env.codec, active, |files[active]|, e), e, index, live, index', live')
    ensures Holds(env, files[active := files[active] + Serialize(e)], active, index', live', clock')
  {
    var b := files[active];
    var files' := files[active := b + Serialize(e)];
    var rebuilt := RebuildBelow(env.codec, files, active + 1);
    var rebuilt' := rebuilt[e.key := Pointer(env.codec, active, |b|, e)];
    RebuildAppend(env.codec, files, active, e);
    assert KeyHolds(env, files, index, rebuilt, live, clock, e.key);
    forall k: Key ensures KeyHolds(env, files', index', rebuilt', live', clock', k) {
      assert KeyHolds(env, files, index, rebuilt, live, clock, k);
      KeyAppend(env, files, active, index, rebuilt, live, clock, e, index', live', clock', k);
    }
  }

  lemma ClockHolds(env: Env, files: Files, active: nat, index: Index, live: Live, clock: U32, clock': U32)
    requires Holds(env, files, active, index, live, clock) && clock <= clock'
    ensures Holds(env, files, active, index, live, clock')
  {
    var rebuilt := RebuildBelow(env.codec, files, active + 1);
    forall k: Key ensures KeyHolds(env, files, index, rebuilt, live, clock', k) {
      assert KeyHolds(env, files, index, rebuilt, live, clock, k);
    }
  }

  /** Opening the next data file changes nothing a reader or a rebuild can see. */
  lemma RotateHolds(env: Env, s: Store, live: Live, clock: U32)
    requires Holds(env, s.files, s.active, s.index, live, clock)
    ensures var s' := Rotate(s); Holds(env, s'.files, s'.active, s'.index, live, clock)
  {
    hide Whole, ScanFile, KeyHolds;
    var s', c := Rotate(s), env.codec;
    var rebuilt := RebuildBelow(c, s.files, s.active + 1);
    RotateRebuilds(c, s);
    forall k: Key ensures KeyHolds(env, s'.files, s'.index, rebuilt, live, clock, k) {
      assert KeyHolds(env, s.files, s.index, rebuilt, live, clock, k);
      KeyGrows(env, s.files, s'.files, s.index, rebuilt, live, clock, k);
    }
  }

  lemma RotateRebuilds(c: Codec, s: Store)
    requires FilesOk(s.files, s.active)
    ensures var s' := Rotate(s);
      FilesOk(s'.files, s'.active) && RebuildBelow(c, s'.files, s'.active + 1) == RebuildBelow(c, s.files, s.active + 1)
  {
    hide ScanFile, Whole, RebuildBelow;
    var s' := Rotate(s);
    EmptyIsWhole();
    RebuildBelowDependsBelow(c, s.files, s'.files, s.active + 1);
    RebuildEmptyFile(c, s'.files, s.active + 1);
  }

  lemma EmptyIsWhole()
    ensures Whole([])
  {
  }

  lemma RebuildEmptyFile(c: Codec, files: Files, id: nat)
    requires id in files && files[id] == []
    ensures RebuildBelow(c, files, id + 1) == RebuildBelow(c, files, id)
  {
    assert ScanFile([]) == [];
  }

  lemma KeyGrows(env: Env, files: Files, files': Files, index: Index, rebuilt: Index, live: Live, clock: U32, k: Key)
    requires KeyHolds(env, files, index, rebuilt, live, clock, k) && Grows(files, files')
    ensures KeyHolds(env, files', index, rebuilt, live, clock, k)
  {
    if k in live {
      ReadGrows(env.codec, files, files', index[k]);
    }
  }
}
