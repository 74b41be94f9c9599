/** What the run relation gives a user of the store: when a write survives a restart, that
    compaction is invisible to readers, and what a snapshot brings back. */
module StoreTheorems {
  import opened Bytes
  import opened Codec
  import opened Framing
  import opened Entry
  import S = Store
  import opened Simulation
  import opened StoreSteps
  import opened StoreRuns

  // ---- when a Put survives a restart ----

  lemma RotatedRebuild(env: S.Env, s: State, live: Live, clock: U32, size: nat)
    requires StateHolds(env, s, live, clock)
    ensures var s1 := S.RotateFor(env, s, size);
      && StateHolds(env, s1, live, clock)
      && s1.index == s.index && s1.active in s1.files
  {
    RotateForHolds(env, s, live, clock, size);
  }

  /** The rebuilt index after one more write, whatever its key, value and timestamp. */
  lemma RebuildAfterWrite(env: S.Env, s: State, live: Live, clock: U32, key: Key, e: Entry)
    requires StateHolds(env, s, live, clock)
    ensures var s' := S.WriteEntry(s, key, e);
      S.Rebuild(env.codec, s'.files) == S.ApplyEntry(env.codec, S.RebuildBelow(env.codec, s.files, s.active + 1),
                                                     s.active, Located(|s.files[s.active]|, Stored(e)))
  {
    RebuildAppend(env.codec, s.files, s.active, e);
    ActiveIsMax(S.WriteEntry(s, key, e).files, s.active);
  }

  lemma WriteRecoverableIff(env: S.Env, s: State, live: Live, clock: U32, key: Key, value: Bytes, ts: U32,
                            deadline: U32)
    requires EnvOk(env) && StateHolds(env, s, live, clock)
    requires |Compress(env.codec, env.compression, value).0| < TWO32
    ensures var s' := S.WriteEntry(s, key, S.PutEntry(env, key, value, ts, deadline));
      AgreesOn(s'.index, S.Rebuild(env.codec, s'.files), key)
      <==> |key| < TWO16 && value != TOMBSTONE && (key in s.index ==> s.index[key].timestamp <= ts)
  {
    var e := S.PutEntry(env, key, value, ts, deadline);
    var rebuilt := S.RebuildBelow(env.codec, s.files, s.active + 1);
    RebuildAfterWrite(env, s, live, clock, key, e);
    assert KeyHolds(env, s.files, s.index, rebuilt, live, clock, key);
    if |key| < TWO16 {
      FittingEntry(env, key, value, ts, deadline);
    }
  }

  lemma PutEntryFields(env: S.Env, key: Key, value: Bytes, ts: U32, deadline: U32)
    ensures var e := S.PutEntry(env, key, value, ts, deadline); e.key == key && e.timestamp == ts && e.ttl == deadline
  {
  }

  lemma FittingEntry(env: S.Env, key: Key, value: Bytes, ts: U32, deadline: U32)
    requires Lawful(env.codec) && |key| < TWO16
    requires |Compress(env.codec, env.compression, value).0| < TWO32
    ensures var e := S.PutEntry(env, key, value, ts, deadline);
      Stored(e) == e && VerifyCRC(env.codec, e) && (S.IsTombstone(env.codec, e) <==> value == TOMBSTONE)
  {
    var (z, ct) := Compress(env.codec, env.compression, value);
    SealVerifies(env.codec, ts, deadline, ct, key, z);
    CompressRoundTrip(env.codec, env.compression, value);
  }

  /** A write is what a rebuild of the index finds if and only if its key fits the 16-bit size field,
      its value is not the deletion marker, and its timestamp is not older than the key's record. Any
      other successful Put is silently lost, or undone, by the next rebuild. (What the replay of a log
      then makes of it is `Recovery.PutSurvivesRestartsIff`.) */
  lemma PutRecoverableIff(env: S.Env, s: State, w: World, clock: U32, key: Key, value: Bytes, ts: U32, deadline: U32)
    requires EnvOk(env) && Represents(env, s, w, clock) && key != []
    requires |Compress(env.codec, env.compression, value).0| < TWO32
    ensures var s' := S.Put(env, s, key, value, ts, deadline);
      AgreesOn(s'.index, S.Rebuild(env.codec, s'.files), key)
      <==> |key| < TWO16 && value != TOMBSTONE && (key in s.index ==> s.index[key].timestamp <= ts)
  {
    var size := Size(S.PutEntry(env, key, value, ts, deadline));
    RotatedRebuild(env, s, w.live, clock, size);
    WriteRecoverableIff(env, S.RotateFor(env, s, size), w.live, clock, key, value, ts, deadline);
  }

  function Later(a: U32, b: U32): U32 {
    if a <= b then b else a
  }

  /** A Put no older than its key's record, whatever the clock says elsewhere. */
  lemma LatePutHolds(env: S.Env, s: State, live: Live, clock: U32, key: Key, value: Bytes, ts: U32, deadline: U32)
    requires EnvOk(env) && StateHolds(env, s, live, clock) && key != [] && ItemOk(env, key, value)
    requires key in s.index ==> s.index[key].timestamp <= ts
    ensures StateHolds(env, S.Put(env, s, key, value, ts, deadline), live[key := Meaning(value, deadline, deadline)],
        Later(clock, ts))
  {
    hide Holds, S.WriteEntry;
    var size := Size(S.PutEntry(env, key, value, ts, deadline));
    RotateForHolds(env, s, live, clock, size);
    WriteHolds(env, S.RotateFor(env, s, size), live, clock, key, value, ts, deadline, Later(clock, ts));
  }

  // ---- a torn active file ----

  /** Cut the active file at any byte: a rebuild finds the index that the file's longest prefix of
      whole entries would give, and no more. */
  lemma TornRebuild(c: Codec, files: S.Files, active: nat, es: seq<Entry>, n: nat)
    requires (forall e :: e in es ==> Sized(e)) && n <= |WriteAll(Serialize, es)|
    ensures var whole := es[..WholeWithin(Serialize, es, n)];
      S.RebuildBelow(c, files[active := WriteAll(Serialize, es)[..n]], active + 1)
      == S.RebuildBelow(c, files[active := WriteAll(Serialize, whole)], active + 1)
  {
    hide ScanFile, Serialize, WriteAll, WholeWithin;
    var m := WholeWithin(Serialize, es, n);
    var torn, whole := files[active := WriteAll(Serialize, es)[..n]], files[active := WriteAll(Serialize, es[..m])];
    TornTail(es, n);
    WholeScan(es[..m]);
    RebuildBelowDependsBelow(c, torn, whole, active);
  }

  /** An append cut short by a crash is, to a rebuild, no append at all. */
  lemma TornAppend(c: Codec, files: S.Files, active: nat, e: Entry, n: nat)
    requires FilesOk(files, active) && n < Size(e)
    ensures var torn := files[active := files[active] + Serialize(e)[..n]];
      S.ActiveAfterRebuild(torn) == active && S.Rebuild(c, torn) == S.Rebuild(c, files)
  {
    hide Serialize;
    var b, part := files[active], Serialize(e)[..n];
    var torn := files[active := b + part];
    TornScan(b, e, n);
    hide Whole, ScanFile;
    SameNewest(files, torn, active);
    RebuildBelowDependsBelow(c, torn, files, active);
  }

  lemma SameNewest(files: S.Files, files': S.Files, active: nat)
    requires FilesOk(files, active) && files'.Keys == files.Keys
    ensures S.ActiveAfterRebuild(files') == S.ActiveAfterRebuild(files) == active
  {
    assert S.IsMax(files.Keys, active);
  }

  lemma TornScan(b: Bytes, e: Entry, n: nat)
    requires Whole(b) && n < Size(e)
    ensures ScanFile(b + Serialize(e)[..n]) == ScanFile(b)
  {
    hide Serialize, ReadEntry;
    ReadEntryStable();
    ScanConcat(ReadEntry, b, Serialize(e)[..n], 0, []);
    CutIsNotRead(e, n);
  }

  /** The data files when a crash cuts an append short, right behind a rotation or not. */
  function TornFiles(s: State, rotated: bool, e: Entry, n: nat): S.Files {
    var s1 := if rotated then S.Rotate(s) else s;
    s1.files[s1.active := S.Contents(s1.files, s1.active) + Fit(Serialize(e), n)]
  }

  /** What a reader needs of an open store, whatever shape the files have. */
  predicate KeyServes(env: S.Env, files: S.Files, index: S.Index, live: Live, k: Key) {
    && (k in live <==> k in index && !index[k].deleted)
    && (k in live ==> S.ReadValue(env.codec, files, index[k]) == Some(live[k].value) && index[k].ttl == live[k].ttl)
  }

  ghost predicate Serves(env: S.Env, s: State, live: Live) {
    s.active in s.files && forall k: Key :: KeyServes(env, s.files, s.index, live, k)
  }

  lemma ServesReads(env: S.Env, s: State, live: Live, key: Key, t: U32)
    requires Serves(env, s, live)
    ensures S.Get(env.codec, s, key, t) == Reads(live, key, t)
  {
    assert KeyServes(env, s.files, s.index, live, key);
  }

  /** They open with the data as they were before that append. */
  lemma TornServes(env: S.Env, s: State, live: Live, clock: U32, rotated: bool, e: Entry, n: nat,
                   snaps: map<nat, S.Files>)
    requires StateHolds(env, s, live, clock) && n < Size(e)
    ensures Serves(env, S.Load(env.codec, TornFiles(s, rotated, e, n), snaps), Durable(live))
  {
    hide Serialize, S.Rebuild, IndexHolds, Whole;
    var s1 := if rotated then S.Rotate(s) else s;
    RotateHolds(env, s, live, clock);
    var torn, index := TornFiles(s, rotated, e, n), S.Rebuild(env.codec, s1.files);
    assert torn == s1.files[s1.active := s1.files[s1.active] + Serialize(e)[..n]];
    TornAppend(env.codec, s1.files, s1.active, e, n);
    RebuiltHolds(env, s1.files, s1.active, s1.index, live, clock);
    hide FilesOk, KeyServes, S.ActiveAfterRebuild;
    assert torn[s1.active := S.Contents(torn, s1.active)] == torn;
    forall k: Key ensures KeyServes(env, torn, index, Durable(live), k) {
      RebuiltServes(env, s1.files, torn, s1.active, Durable(live), clock, k);
    }
  }

  lemma RebuiltServes(env: S.Env, files: S.Files, torn: S.Files, active: nat, live: Live, clock: U32, k: Key)
    requires Holds(env, files, active, S.Rebuild(env.codec, files), live, clock) && Grows(files, torn)
    ensures KeyServes(env, torn, S.Rebuild(env.codec, files), live, k)
  {
    var index := S.Rebuild(env.codec, files);
    assert KeyHolds(env, files, index, S.RebuildBelow(env.codec, files, active + 1), live, clock, k);
    if k in live {
      ReadGrows(env.codec, files, torn, index[k]);
    }
  }

  /** Uncut, the scan lists every entry. */
  lemma WholeScan(es: seq<Entry>)
    requires forall e :: e in es ==> Sized(e)
    ensures ScanFile(WriteAll(Serialize, es)) == Layout(Serialize, es, 0, [])
  {
    hide ScanFile, Serialize;
    var b := WriteAll(Serialize, es);
    assert b[..|b|] == b;
    TornTail(es, |b|);
    AllWithin(es);
    assert es[..|es|] == es;
  }

  lemma {:induction false} AllWithin(es: seq<Entry>)
    ensures WholeWithin(Serialize, es, |WriteAll(Serialize, es)|) == |es|
  {
    hide Serialize;
    if es != [] {
      AllWithin(es[1..]);
    }
  }

  // ---- expiry ----

  /** expireKey runs some time after the read that found the key expired, and does not look at the
      expiry again. If nothing but reads follow, it goes unnoticed if and only if the key does not read
      at that moment. */
  lemma ExpireSeenIff(env: S.Env, s: State, w: World, clock: U32, key: Key, ts: U32)
    requires EnvOk(env) && Represents(env, s, w, clock) && clock <= ts
    ensures (forall t: U32 :: ts <= t ==>
              S.Get(env.codec, S.Expire(env, s, key, ts), key, t) == S.Get(env.codec, s, key, t))
      <==> S.Get(env.codec, s, key, ts).None?
  {
    hide S.Get, Holds, SnapHolds, S.Expire;
    var s' := S.Expire(env, s, key, ts);
    DeleteHolds(env, s, w.live, clock, key, ts);
    forall t: U32
      ensures S.Get(env.codec, s, key, t) == Reads(w.live, key, t)
      ensures S.Get(env.codec, s', key, t) == Reads(w.live - {key}, key, t)
    {
      GetFromMeaning(env, s, w.live, clock, key, t);
      GetFromMeaning(env, s', w.live - {key}, ts, key, t);
    }
    assert S.Get(env.codec, s', key, ts) == Reads(w.live - {key}, key, ts);
  }

  /** Two states that no run of operations and no read after it can tell apart. */
  ghost predicate Indistinguishable(env: S.Env, s: State, s': State, clock: U32) {
    forall ops, key, t: U32 :: AllowedRun(env, s, ops, clock) && AllowedRun(env, s', ops, clock) ==>
      S.Get(env.codec, Run(env, s, ops), key, t) == S.Get(env.codec, Run(env, s', ops), key, t)
  }

  /** Whatever may follow, it goes unnoticed if and only if the key is not live in the index: SetTTL does
      not look at the expiry either, and would have brought an expired key back. */
  lemma ExpireUnnoticedIff(env: S.Env, s: State, w: World, clock: U32, key: Key, ts: U32)
    requires EnvOk(env) && Represents(env, s, w, clock) && clock <= ts && key != []
    ensures Indistinguishable(env, s, S.Expire(env, s, key, ts), ts) <==> key !in s.index || s.index[key].deleted
  {
    hide S.Get, Holds, SnapHolds, S.SetTTL, S.Bury;
    var s' := S.Expire(env, s, key, ts);
    if key in s.index && !s.index[key].deleted {
      var op := SetTTL(key, 0);
      DeleteHolds(env, s, w.live, clock, key, ts);
      LiveKey(env, s, w, clock, key);
      SetTTLHolds(env, s, w.live, clock, key, 0);
      SetTTLHolds(env, s', w.live - {key}, ts, key, 0);
      OneSetTTL(env, s, key, ts);
      OneSetTTL(env, s', key, ts);
      GetFromMeaning(env, S.SetTTL(s, key, 0), w.live[key := w.live[key].(ttl := 0)], clock, key, 0);
      GetFromMeaning(env, S.SetTTL(s', key, 0), w.live - {key}, ts, key, 0);
      assert S.Get(env.codec, Run(env, s, [op]), key, 0) != S.Get(env.codec, Run(env, s', [op]), key, 0);
    }
  }

  lemma LiveKey(env: S.Env, s: State, w: World, clock: U32, key: Key)
    requires Represents(env, s, w, clock)
    ensures key in w.live <==> key in s.index && !s.index[key].deleted
  {
    assert KeyHolds(env, s.files, s.index, S.RebuildBelow(env.codec, s.files, s.active + 1), w.live, clock, key);
  }

  lemma OneSetTTL(env: S.Env, s: State, key: Key, clock: U32)
    ensures Run(env, s, [SetTTL(key, 0)]) == S.SetTTL(s, key, 0) && AllowedRun(env, s, [SetTTL(key, 0)], clock)
  {
    var rest := [SetTTL(key, 0)][1..];
    assert rest == [];
    assert Run(env, S.SetTTL(s, key, 0), rest) == S.SetTTL(s, key, 0);
  }

  // ---- listing ----

  /** Whether ListKeys lists a key. */
  predicate Lists(s: State, key: Key, now: U32) {
    key in s.index && !s.index[key].deleted && (s.index[key].ttl == 0 || now <= s.index[key].ttl)
  }

  /** ListKeys promises the keys that have not expired, but counts the last second as not expired
      while Get counts it as expired: a listed key reads back exactly outside that second,
      and nothing else is listed. */
  lemma ListedReadsIff(env: S.Env, s: State, w: World, clock: U32, key: Key, now: U32)
    requires Represents(env, s, w, clock) && key != []
    ensures S.Get(env.codec, s, key, now).Some? ==> Lists(s, key, now)
    ensures Lists(s, key, now) <==>
      S.Get(env.codec, s, key, now).Some? || (key in s.index && !s.index[key].deleted && s.index[key].ttl == now > 0)
    ensures Lists(s, key, now)
        ==> (S.Get(env.codec, s, key, now).Some? <==> s.index[key].ttl == 0 || now != s.index[key].ttl)
  {
    GetFromMeaning(env, s, w.live, clock, key, now);
    assert KeyHolds(env, s.files, s.index, S.RebuildBelow(env.codec, s.files, s.active + 1), w.live, clock, key);
  }

  // ---- compaction ----

  /** Entry number i of a file is the i-th key's, and the index points at exactly that entry. */
  predicate LaidOutAt(c: Codec, es: seq<Located<Entry>>, order: seq<Key>, index: S.Index, i: nat)
    requires i < |es| == |order|
  {
    es[i].item.key == order[i] && order[i] in index && index[order[i]] == S.Pointer(c, 1, es[i].off, es[i].item)
  }

  /** The compacted file holds one entry per kept key, in iteration order. */
  ghost predicate LaidOut(c: Codec, es: seq<Located<Entry>>, order: seq<Key>, index: S.Index) {
    |es| == |order| && forall i: nat :: i < |es| ==> LaidOutAt(c, es, order, index, i)
  }

  lemma LaidOutAppend(c: Codec, es: seq<Located<Entry>>, order: seq<Key>, index: S.Index, at: Located<Entry>)
    requires LaidOut(c, es, order, index) && at.item.key !in order
    ensures LaidOut(c, es + [at], order + [at.item.key], index[at.item.key := S.Pointer(c, 1, at.off, at.item)])
  {
    var es', order', index' := es + [at], order + [at.item.key], index[at.item.key := S.Pointer(c, 1, at.off, at.item)];
    forall i: nat | i < |es'| ensures LaidOutAt(c, es', order', index', i) {
      if i < |es| {
        assert LaidOutAt(c, es, order, index, i) && order[i] in order;
      }
    }
  }

  lemma WriteLaidOut(env: S.Env, done: State, order: seq<Key>, key: Key, value: Bytes, ts: U32, deadline: U32)
    requires Lawful(env.codec) && |key| < TWO16 && Storable(env, value) && key !in order
    requires done.active == 1 && FilesOk(done.files, 1)
    requires LaidOut(env.codec, ScanFile(done.files[1]), order, done.index)
    ensures var done' := S.WriteEntry(done, key, S.PutEntry(env, key, value, ts, deadline));
      LaidOut(env.codec, ScanFile(done'.files[1]), order + [key], done'.index)
  {
    hide Serialize, ScanFile, LaidOut, S.PutEntry;
    var e := S.PutEntry(env, key, value, ts, deadline);
    AppendEntry(done.files[1], e);
    FittingEntry(env, key, value, ts, deadline);
    assert e.key == key && e.timestamp == ts && e.ttl == deadline by {
      PutEntryFields(env, key, value, ts, deadline);
    }
    LaidOutAppend(env.codec, ScanFile(done.files[1]), order, done.index, Located(|done.files[1]|, e));
  }

  lemma CompactLaidOutStep(env: S.Env, s: State, live: Live, clock: U32, init: seq<Key>, done: State, last: Key)
    requires Lawful(env.codec) && StateHolds(env, s, live, clock)
    requires last in live && last in s.index && last !in init
    requires done.active == 1 && done.files.Keys == {1} && FilesOk(done.files, 1)
    requires LaidOut(env.codec, ScanFile(done.files[1]), init, done.index)
    ensures var done' := S.CompactKey(env, s, done, last);
      && done'.active == 1 && done'.files.Keys == {1}
      && LaidOut(env.codec, ScanFile(done'.files[1]), init + [last], done'.index)
  {
    assert KeyHolds(env, s.files, s.index, S.RebuildBelow(env.codec, s.files, s.active + 1), live, clock, last);
    var kd, value := s.index[last], live[last].value;
    assert S.CompactKey(env, s, done, last)
        == S.WriteEntry(done, last, S.PutEntry(env, last, value, kd.timestamp, kd.ttl));
    WriteLaidOut(env, done, init, last, value, kd.timestamp, kd.ttl);
  }

  lemma {:induction false} CompactLaidOut(env: S.Env, s: State, live: Live, clock: U32, keys: seq<Key>)
    requires Lawful(env.codec) && StateHolds(env, s, live, clock)
    requires forall k :: k in keys ==> k in live && k in s.index
    requires forall i, j :: 0 <= i < j < |keys| ==> keys[i] != keys[j]
    ensures var done := S.CompactKeys(env, s, keys);
      && done.active == 1 && done.files.Keys == {1}
      && LaidOut(env.codec, ScanFile(done.files[1]), keys, done.index)
  {
    if keys == [] {
      assert ScanFile([]) == [];
    } else {
      var init, last := keys[..|keys| - 1], keys[|keys| - 1];
      assert keys == init + [last];
      CompactLaidOut(env, s, live, clock, init);
      CompactKeysHolds(env, s, live, clock, init);
      CompactLaidOutStep(env, s, live, clock, init, S.CompactKeys(env, s, init), last);
    }
  }

  /** Compaction at `now`, in any iteration order: from `now` on every read returns what it
      returned before, although a key expiring exactly at `now` is kept. */
  lemma CompactPreservesReads(env: S.Env, s: State, w: World, clock: U32, order: seq<Key>, now: U32, key: Key, t: U32)
    requires EnvOk(env) && Represents(env, s, w, clock) && S.Enumerates(order, s.index, now)
    requires now <= t
    ensures S.Get(env.codec, S.Compact(env, s, order), key, t) == S.Get(env.codec, s, key, t)
  {
    var op := Compact(order, now);
    StepRepresents(env, s, w, clock, op);
    GetFromMeaning(env, s, w.live, clock, key, t);
    GetFromMeaning(env, S.Compact(env, s, order), Means(w, op).live, clock, key, t);
  }

  /** The one new file lists each kept key once, at its indexed offset, and a rebuild of that file
      is the new index, expiries that had been only in memory included. */
  lemma CompactRebuilds(env: S.Env, s: State, w: World, clock: U32, order: seq<Key>, now: U32)
    requires EnvOk(env) && Represents(env, s, w, clock) && S.Enumerates(order, s.index, now)
    ensures var s' := S.Compact(env, s, order);
      && s'.files.Keys == {1}
      && LaidOut(env.codec, ScanFile(s'.files[1]), order, s'.index)
      && s'.index.Keys == (set k | k in s.index && S.KeptByCompact(s.index[k], now))
      && S.Rebuild(env.codec, s'.files) == s'.index
  {
    CompactedIndex(env, s, w, clock, order, now);
    CompactedRebuild(env, s, w, clock, order, now);
  }

  /** Compaction keeps each kept key's time stamp and expiry, and keeps exactly the keys that are not
      deleted and have no expiry or one that is not before `now`. */
  lemma CompactRecords(env: S.Env, s: State, w: World, clock: U32, order: seq<Key>, now: U32)
    requires EnvOk(env) && Represents(env, s, w, clock) && S.Enumerates(order, s.index, now)
    ensures var index := S.Compact(env, s, order).index;
      && (forall k :: k in index <==>
            k in s.index && !s.index[k].deleted && (s.index[k].ttl == 0 || now <= s.index[k].ttl))
      && (forall k :: k in index ==> index[k].timestamp == s.index[k].timestamp && index[k].ttl == s.index[k].ttl)
  {
    hide S.CompactKeys, S.ReadAt, LaidOut;
    CompactedIndex(env, s, w, clock, order, now);
    forall k | k in order ensures k in s.index && S.ReadAt(s.files, s.index[k]).Some? {
      ReadableLive(env, s, w, clock, k);
    }
    CompactStamps(env, s, order);
  }

  lemma ReadableLive(env: S.Env, s: State, w: World, clock: U32, k: Key)
    requires Represents(env, s, w, clock) && k in s.index && !s.index[k].deleted
    ensures S.ReadAt(s.files, s.index[k]).Some?
  {
    assert KeyHolds(env, s.files, s.index, S.RebuildBelow(env.codec, s.files, s.active + 1), w.live, clock, k);
  }

  lemma {:induction false} CompactStamps(env: S.Env, s: State, keys: seq<Key>)
    requires forall k :: k in keys ==> k in s.index && S.ReadAt(s.files, s.index[k]).Some?
    ensures forall k :: k in keys ==>
      var index := S.CompactKeys(env, s, keys).index;
      k in index && index[k].timestamp == s.index[k].timestamp && index[k].ttl == s.index[k].ttl
  {
    hide Serialize, Compress, Decompress, S.ReadAt, Seal;
    if keys != [] {
      var init, last := keys[..|keys| - 1], keys[|keys| - 1];
      assert keys == init + [last];
      CompactStamps(env, s, init);
      var done, kd := S.CompactKeys(env, s, init), s.index[last];
      var data := S.ReadAt(s.files, kd).value;
      var value := match Decompress(env.codec, data, kd.compression) case Some(v) => v case None => data;
      PutEntryFields(env, last, value, kd.timestamp, kd.ttl);
    }
  }

  lemma CompactedRebuild(env: S.Env, s: State, w: World, clock: U32, order: seq<Key>, now: U32)
    requires EnvOk(env) && Represents(env, s, w, clock) && S.Enumerates(order, s.index, now)
    requires forall k :: k in S.Compact(env, s, order).index ==> !S.Compact(env, s, order).index[k].deleted
    ensures S.Rebuild(env.codec, S.Compact(env, s, order).files) == S.Compact(env, s, order).index
  {
    hide S.Compact, S.Rebuild, Holds, SnapHolds;
    var op, s' := Compact(order, now), S.Compact(env, s, order);
    StepRepresents(env, s, w, clock, op);
    var r := S.Rebuild(env.codec, s'.files);
    RecoveryEqualsMemory(env, s', Means(w, op), clock);
    forall k: Key ensures (k in r <==> k in s'.index) && (k in r ==> r[k] == s'.index[k]) {
      assert Recovers(env, s', Kept(w.live, now), r, k);
    }
  }

  lemma CompactedIndex(env: S.Env, s: State, w: World, clock: U32, order: seq<Key>, now: U32)
    requires EnvOk(env) && Represents(env, s, w, clock) && S.Enumerates(order, s.index, now)
    ensures var s' := S.Compact(env, s, order);
      && s'.files.Keys == {1}
      && LaidOut(env.codec, ScanFile(s'.files[1]), order, s'.index)
      && s'.index.Keys == (set k | k in s.index && S.KeptByCompact(s.index[k], now))
      && (forall k :: k in s'.index ==> !s'.index[k].deleted)
  {
    forall k | k in order ensures k in w.live {
      assert KeyHolds(env, s.files, s.index, S.RebuildBelow(env.codec, s.files, s.active + 1), w.live, clock, k);
    }
    CompactLaidOut(env, s, w.live, clock, order);
    CompactKeysHolds(env, s, w.live, clock, order);
    var s' := S.Compact(env, s, order);
    forall k | k in s'.index ensures !s'.index[k].deleted {
      assert KeyHolds(env, s'.files, s'.index, S.RebuildBelow(env.codec, s'.files, s'.active + 1),
          KeptSoFar(w.live, order), clock, k);
    }
  }

  // ---- snapshots and restarts ----

  lemma {:induction false} RunKeepsSnap(w: World, ops: seq<Op>, id: nat)
    requires id in w.snaps && forall op :: op in ops ==> op != Snapshot(id)
    ensures id in RunMeans(w, ops).snaps && RunMeans(w, ops).snaps[id] == w.snaps[id]
    decreases |ops|
  {
    if ops != [] {
      assert ops[0] in ops;
      assert forall op :: op in ops[1..] ==> op in ops;
      RunKeepsSnap(Means(w, ops[0]), ops[1..], id);
    }
  }

  /** Restoring a snapshot after any further run gives the map that held when it was created:
      every key reads as it did then, at every time, if and only if no SetTTL on it was still only
      in memory when the snapshot was taken. */
  lemma SnapshotRoundTrip(env: S.Env, s: State, w: World, clock: U32, id: nat, ops: seq<Op>)
    requires EnvOk(env) && Represents(env, s, w, clock)
    requires AllowedRun(env, S.CreateSnapshot(s, id), ops, clock) && forall op :: op in ops ==> op != Snapshot(id)
    ensures var after := S.RestoreFromSnapshot(env.codec, Run(env, S.CreateSnapshot(s, id), ops), id);
      && StateHolds(env, after, Durable(w.live), RunClock(ops, clock))
      && (forall key: Key :: key != [] ==>
           (SameReads(env.codec, s, after, key) <==> key in w.live ==> w.live[key].ttl == w.live[key].durable))
  {
    var s1, w1 := Step(env, s, Snapshot(id)), Means(w, Snapshot(id));
    StepRepresents(env, s, w, clock, Snapshot(id));
    RunRepresents(env, s1, w1, clock, ops);
    RunKeepsSnap(w1, ops, id);
    var s2, w2, clock2 := Run(env, s1, ops), RunMeans(w1, ops), RunClock(ops, clock);
    StepRepresents(env, s2, w2, clock2, Restore(id));
    var after, w3 := Step(env, s2, Restore(id)), Means(w2, Restore(id));
    forall key: Key | key != []
      ensures SameReads(env.codec, s, after, key) <==> key in w.live ==> w.live[key].ttl == w.live[key].durable
    {
      SameReadsIff(env, s, w, clock, after, w3, clock2, key);
    }
  }

  ghost predicate SameReads(c: Codec, s: State, s': State, key: Key) {
    forall t: U32 :: S.Get(c, s, key, t) == S.Get(c, s', key, t)
  }

  lemma SameReadsIff(env: S.Env, s: State, w: World, clock: U32, s': State, w': World, clock': U32, key: Key)
    requires Represents(env, s, w, clock) && Represents(env, s', w', clock')
    requires key != [] && w'.live == Durable(w.live)
    ensures SameReads(env.codec, s, s', key) <==> key in w.live ==> w.live[key].ttl == w.live[key].durable
  {
    hide S.Get, Holds, SnapHolds;
    forall t: U32
      ensures S.Get(env.codec, s, key, t) == Reads(w.live, key, t)
      ensures S.Get(env.codec, s', key, t) == Reads(w'.live, key, t)
    {
      GetFromMeaning(env, s, w.live, clock, key, t);
      GetFromMeaning(env, s', w'.live, clock', key, t);
    }
    if key in w.live {
      var a, b := w.live[key].ttl, w.live[key].durable;
      // the moment at which exactly one of two different expiries has passed
      var t: U32 := if a == 0 then b else if b == 0 then a else if a < b then a else b;
      assert a != b ==> Reads(w.live, key, t) != Reads(w'.live, key, t);
      assert S.Get(env.codec, s, key, t) == Reads(w.live, key, t);
    }
  }
}
