/** Entries whose stored bytes do not match their checksum: a rebuild skips them, wherever they are,
    and finds all others. */
module CorruptEntries {
  import opened Bytes
  import opened Codec
  import opened Framing
  import opened Entry
  import S = Store
  import opened Simulation
  import opened StoreSteps
  import opened StoreRuns

  /** The checksum of the stored bytes behind it is not the stored one. */
  predicate Corrupt(c: Codec, e: Entry) {
    c.crc(Serialize(e)[4..]) != e.crc
  }

  lemma CorruptFails(c: Codec, e: Entry)
    requires Sized(e)
    ensures Corrupt(c, e) <==> !VerifyCRC(c, e)
  {
    hide Serialize, CrcInput;
    CrcCoversTheRest(e);
  }

  /** To a rebuild, a corrupt entry at the end of the newest file is not there. */
  lemma CorruptAppend(c: Codec, files: S.Files, active: nat, e: Entry)
    requires FilesOk(files, active) && Sized(e) && Corrupt(c, e)
    ensures var files' := files[active := files[active] + Serialize(e)];
      FilesOk(files', active) && S.RebuildBelow(c, files', active + 1) == S.RebuildBelow(c, files, active + 1)
  {
    hide Serialize, CrcInput, Whole;
    RebuildAppend(c, files, active, e);
    CorruptFails(c, e);
  }

  // ---- any mixture of intact and corrupt entries ----

  /** What an entry of a file means: nothing if it is corrupt, else its value or a deletion. */
  function Means(c: Codec, live: Live, e: Entry): Live {
    if Corrupt(c, e) then live
    else
      match Decompress(c, e.value, e.compression)
      case None => live
      case Some(v) => if v == TOMBSTONE then live - {e.key} else live[e.key := Meaning(v, e.ttl, e.ttl)]
  }

  function ClockAfter(c: Codec, e: Entry, clock: U32): U32 {
    if Corrupt(c, e) then clock else e.timestamp
  }

  /** An intact entry holds a value the store could have written, no earlier than the ones before it;
      of a corrupt one nothing is asked. */
  predicate Plausible(env: S.Env, e: Entry, clock: U32) {
    && Sized(e)
    && (!Corrupt(env.codec, e) ==>
      && clock <= e.timestamp
      && match Decompress(env.codec, e.value, e.compression)
         case None => false
         case Some(v) => v == TOMBSTONE || Storable(env, v))
  }

  /** What the files alone say. */
  ghost predicate FilesMean(env: S.Env, files: S.Files, active: nat, live: Live, clock: U32) {
    Holds(env, files, active, S.RebuildBelow(env.codec, files, active + 1), live, clock)
  }

  lemma IntactAppend(env: S.Env, files: S.Files, active: nat, live: Live, clock: U32, e: Entry)
    requires FilesMean(env, files, active, live, clock) && Plausible(env, e, clock) && !Corrupt(env.codec, e)
    ensures var b := files[active];
      FilesMean(env, files[active := b + Serialize(e)], active, Means(env.codec, live, e), e.timestamp)
  {
    hide Serialize, CrcInput, Whole, Decompress, Storable, S.ReadAt;
    var b, c := files[active], env.codec;
    var files' := files[active := b + Serialize(e)];
    var rebuilt, live' := S.RebuildBelow(c, files, active + 1), Means(c, live, e);
    var p := S.Pointer(c, active, |b|, e);
    RebuildAppend(c, files, active, e);
    CorruptFails(c, e);
    assert KeyHolds(env, files, rebuilt, rebuilt, live, clock, e.key);
    var rebuilt' := rebuilt[e.key := p];
    forall k: Key ensures KeyHolds(env, files', rebuilt', rebuilt', live', e.timestamp, k) {
      assert KeyHolds(env, files, rebuilt, rebuilt, live, clock, k);
      IntactKey(env, files, active, rebuilt, live, clock, e, k);
    }
  }

  lemma IntactKey(env: S.Env, files: S.Files, active: nat, rebuilt: S.Index, live: Live, clock: U32, e: Entry, k: Key)
    requires active in files && KeyHolds(env, files, rebuilt, rebuilt, live, clock, k)
    requires Plausible(env, e, clock) && !Corrupt(env.codec, e)
    ensures var b := files[active];
      var rebuilt' := rebuilt[e.key := S.Pointer(env.codec, active, |b|, e)];
      KeyHolds(env, files[active := b + Serialize(e)], rebuilt', rebuilt', Means(env.codec, live, e), e.timestamp, k)
  {
    hide Serialize, Decompress, S.ReadAt;
    var files' := files[active := files[active] + Serialize(e)];
    if k == e.key {
      ReadAppended(env.codec, files', active, files[active], e);
    } else if k in live {
      ReadGrows(env.codec, files, files', rebuilt[k]);
    }
  }

  lemma CorruptMeans(env: S.Env, files: S.Files, active: nat, live: Live, clock: U32, e: Entry)
    requires FilesMean(env, files, active, live, clock) && Sized(e) && Corrupt(env.codec, e)
    ensures FilesMean(env, files[active := files[active] + Serialize(e)], active, live, clock)
  {
    hide Serialize, Whole, S.RebuildBelow, KeyHolds, S.ReadValue;
    var files' := files[active := files[active] + Serialize(e)];
    CorruptAppend(env.codec, files, active, e);
    var rebuilt := S.RebuildBelow(env.codec, files, active + 1);
    forall k: Key ensures KeyHolds(env, files', rebuilt, rebuilt, live, clock, k) {
      assert KeyHolds(env, files, rebuilt, rebuilt, live, clock, k);
      KeyGrows(env, files, files', rebuilt, rebuilt, live, clock, k);
    }
  }

  function MeansAll(c: Codec, live: Live, es: seq<Entry>): Live {
    if es == [] then live else Means(c, MeansAll(c, live, es[..|es| - 1]), es[|es| - 1])
  }

  function ClockOf(c: Codec, es: seq<Entry>, clock: U32): U32 {
    if es == [] then clock else ClockAfter(c, es[|es| - 1], ClockOf(c, es[..|es| - 1], clock))
  }

  predicate AllPlausible(env: S.Env, es: seq<Entry>, clock: U32) {
    es != [] ==>
      && AllPlausible(env, es[..|es| - 1], clock)
      && Plausible(env, es[|es| - 1], ClockOf(env.codec, es[..|es| - 1], clock))
  }

  lemma {:induction false} WriteAllAppend(es: seq<Entry>, e: Entry)
    ensures WriteAll(Serialize, es + [e]) == WriteAll(Serialize, es) + Serialize(e)
  {
    hide Serialize;
    if es == [] {
      assert [e][1..] == [];
      assert WriteAll(Serialize, [e]) == Serialize(e) + [];
    } else {
      assert (es + [e])[1..] == es[1..] + [e];
      WriteAllAppend(es[1..], e);
    }
  }

  lemma {:induction false} AppendsMean(env: S.Env, files: S.Files, active: nat, live: Live, clock: U32, es: seq<Entry>)
    requires FilesMean(env, files, active, live, clock) && AllPlausible(env, es, clock)
    ensures var files' := files[active := files[active] + WriteAll(Serialize, es)];
      FilesMean(env, files', active, MeansAll(env.codec, live, es), ClockOf(env.codec, es, clock))
  {
    hide FilesMean, Serialize, Means, Plausible, ClockAfter;
    assert active in files by {
      ActiveThere(env, files, active, live, clock);
    }
    if es == [] {
      assert files[active] + [] == files[active] && files[active := files[active]] == files;
    } else {
      var init, e := es[..|es| - 1], es[|es| - 1];
      assert es == init + [e];
      WriteAllAppend(init, e);
      AppendsMean(env, files, active, live, clock, init);
      var mid := files[active := files[active] + WriteAll(Serialize, init)];
      OneMeans(env, mid, active, MeansAll(env.codec, live, init), ClockOf(env.codec, init, clock), e);
      var b, a, z := files[active], WriteAll(Serialize, init), Serialize(e);
      assert (b + a) + z == b + (a + z);
      assert mid[active := (b + a) + z] == files[active := (b + a) + z];
    }
  }

  lemma ActiveThere(env: S.Env, files: S.Files, active: nat, live: Live, clock: U32)
    requires FilesMean(env, files, active, live, clock)
    ensures active in files
  {
  }

  lemma OneMeans(env: S.Env, files: S.Files, active: nat, live: Live, clock: U32, e: Entry)
    requires FilesMean(env, files, active, live, clock) && Plausible(env, e, clock) && active in files
    ensures var files' := files[active := files[active] + Serialize(e)];
      FilesMean(env, files', active, Means(env.codec, live, e), ClockAfter(env.codec, e, clock))
  {
    hide FilesMean, Serialize;
    if Corrupt(env.codec, e) {
      CorruptMeans(env, files, active, live, clock, e);
    } else {
      IntactAppend(env, files, active, live, clock, e);
    }
  }

  /** From any reachable state on, let the active file have grown by any entries, any of them corrupt.
      The database then opens with exactly the intact ones applied to what the files said before: every
      key reads, at every time, as on the plain map that never saw the corrupt ones. */
  lemma CorruptSkipped(env: S.Env, s: State, live: Live, clock: U32, es: seq<Entry>,
                       snaps: map<nat, S.Files>, key: Key, t: U32)
    requires StateHolds(env, s, live, clock) && AllPlausible(env, es, clock) && s.active in s.files
    ensures var files := s.files[s.active := s.files[s.active] + WriteAll(Serialize, es)];
      var reopened := S.Load(env.codec, files, snaps);
      && StateHolds(env, reopened, Durable(MeansAll(env.codec, Durable(live), es)), ClockOf(env.codec, es, clock))
      && S.Get(env.codec, reopened, key, t) == Reads(MeansAll(env.codec, Durable(live), es), key, t)
  {
    hide Serialize, S.Get, S.Load, Holds, MeansAll, ClockOf, AllPlausible;
    RebuiltHolds(env, s.files, s.active, s.index, live, clock);
    RebuiltIs(env, s.files, s.active, live, clock);
    AppendsMean(env, s.files, s.active, Durable(live), clock, es);
    var files := s.files[s.active := s.files[s.active] + WriteAll(Serialize, es)];
    var live', clock' := MeansAll(env.codec, Durable(live), es), ClockOf(env.codec, es, clock);
    ReopenHolds(env, files, s.active, S.RebuildBelow(env.codec, files, s.active + 1), live', clock', snaps);
    GetFromMeaning(env, S.Load(env.codec, files, snaps), Durable(live'), clock', key, t);
    StaysDurable(env.codec, live, es, key);
  }

  lemma RebuiltIs(env: S.Env, files: S.Files, active: nat, live: Live, clock: U32)
    requires Holds(env, files, active, S.Rebuild(env.codec, files), Durable(live), clock)
    requires S.ActiveAfterRebuild(files) == active
    ensures FilesMean(env, files, active, Durable(live), clock)
  {
  }

  lemma {:induction false} StaysDurable(c: Codec, live: Live, es: seq<Entry>, key: Key)
    ensures var m := MeansAll(c, Durable(live), es); key in m ==> m[key].ttl == m[key].durable
  {
    hide Corrupt, Decompress;
    if es != [] {
      StaysDurable(c, live, es[..|es| - 1], key);
    }
  }

  /** The smallest case: the last write of a reachable state has been damaged in place, its sizes kept.
      Its key then reads what it read before that write. */
  lemma DamagedWrite(env: S.Env, s: State, live: Live, clock: U32, damaged: Entry,
                     snaps: map<nat, S.Files>, key: Key, t: U32)
    requires StateHolds(env, s, live, clock) && s.active in s.files && Sized(damaged) && Corrupt(env.codec, damaged)
    ensures var files := s.files[s.active := s.files[s.active] + Serialize(damaged)];
      S.Get(env.codec, S.Load(env.codec, files, snaps), key, t) == Reads(Durable(live), key, t)
  {
    hide Serialize, S.Get, S.Load, Holds;
    OneDamaged(env, Durable(live), clock, damaged);
    CorruptSkipped(env, s, live, clock, [damaged], snaps, key, t);
  }

  lemma OneDamaged(env: S.Env, live: Live, clock: U32, damaged: Entry)
    requires Sized(damaged) && Corrupt(env.codec, damaged)
    ensures AllPlausible(env, [damaged], clock) && MeansAll(env.codec, live, [damaged]) == live
    ensures WriteAll(Serialize, [damaged]) == Serialize(damaged)
  {
    hide Serialize;
    assert [damaged][..0] == [] && [damaged][1..] == [];
    assert WriteAll(Serialize, [damaged]) == Serialize(damaged) + [];
  }
}
