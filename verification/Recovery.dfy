/** What a restart with a log does to a database: the log is never truncated, so every start
    replays all it has ever committed. Meanings are compared with their expiries, and databases by
    what their readers get. */
module Recovery {
  import opened Bytes
  import opened Codec
  import S = Store
  import opened Simulation
  import opened StoreSteps
  import opened StoreRuns
  import opened StoreTheorems
  import opened Wal
  import opened Replay
  import opened Transactions

  lemma SameLive(a: Live, b: Live)
    requires forall k: Bytes :: LookLive(a, k) == LookLive(b, k)
    ensures a == b
  {
    forall k: Bytes ensures (k in a <==> k in b) && (k in a ==> a[k] == b[k]) {
      assert LookLive(a, k) == LookLive(b, k);
    }
  }

  lemma ReplayLook(live: Live, txs: Txs, order: seq<TxID>, k: Bytes)
    requires forall id :: id in order ==> id in txs
    ensures LookLive(LiveAfter(live, Flat(txs, order)), k) == BecomesLive(NetIn(txs, order, k), LookLive(live, k))
  {
    LiveAfterLook(live, Flat(txs, order), k);
    NetFlat(txs, order, k);
  }

  // ---- when a restart keeps the data ----

  /** No later write changed what a logged transaction left at a key, expiry included. */
  ghost predicate Settled(live: Live, txs: Txs) {
    forall t, k :: t in txs ==> BecomesLive(Net(txs[t], k), LookLive(live, k)) == LookLive(live, k)
  }

  /** Replay keeps the data, in every iteration order, if and only if they are settled. */
  lemma RecoveryKeepsDataIff(live: Live, txs: Txs)
    ensures (forall order :: Enumerates(order, txs) ==> LiveAfter(live, Flat(txs, order)) == live)
        <==> Settled(live, txs)
  {
    if Settled(live, txs) {
      forall order | Enumerates(order, txs) ensures LiveAfter(live, Flat(txs, order)) == live {
        forall k: Bytes ensures LookLive(LiveAfter(live, Flat(txs, order)), k) == LookLive(live, k) {
          ReplayLook(live, txs, order, k);
          var t := NetInIsSomeNet(txs, order, k);
        }
        SameLive(LiveAfter(live, Flat(txs, order)), live);
      }
    }
    if forall order :: Enumerates(order, txs) ==> LiveAfter(live, Flat(txs, order)) == live {
      forall t, k | t in txs ensures BecomesLive(Net(txs[t], k), LookLive(live, k)) == LookLive(live, k) {
        var order := EnumerationEndingIn(txs, t);
        ReplayLook(live, txs, order, k);
      }
    }
  }

  /** A possible restart: some iteration order, and clock readings that go on from `clock`. */
  ghost predicate Restart(d: Disk, clock: U32, order: seq<TxID>, stamps: seq<U32>) {
    Enumerates(order, Committed(d.log)) && |stamps| == |Flat(Committed(d.log), order)| && Timed(stamps, clock)
  }

  ghost predicate Replayable(env: S.Env, d: Disk) {
    forall id, op :: id in Committed(d.log) && op in Committed(d.log)[id] ==> OpOk(env, op)
  }

  /** Whether, in every restart, every key reads at all times as without the replay. */
  ghost predicate RestartsKeepReads(env: S.Env, d: Disk, clock: U32) {
    forall order, stamps, key, t: U32 :: Restart(d, clock, order, stamps) ==>
      S.Get(env.codec, Recover(env, d, order, stamps), key, t)
      == S.Get(env.codec, S.Load(env.codec, d.store.files, d.store.snaps), key, t)
  }

  lemma {:induction false} DurableAfter(live: Live, ops: seq<TxOp>)
    requires Durable(live) == live
    ensures Durable(LiveAfter(live, ops)) == LiveAfter(live, ops)
  {
    if ops != [] {
      DurableAfter(live, ops[..|ops| - 1]);
      var before := LiveAfter(live, ops[..|ops| - 1]);
      assert forall k :: k in before ==> Durable(before)[k].ttl == before[k].durable;
    }
  }

  lemma DurableTwice(live: Live)
    ensures Durable(Durable(live)) == Durable(live)
  {
  }

  /** The operations replay issues fit the store. */
  lemma RestartHolds(env: S.Env, d: Disk, live: Live, clock: U32, order: seq<TxID>, stamps: seq<U32>)
    requires EnvOk(env) && StateHolds(env, d.store, live, clock) && Replayable(env, d)
    requires Restart(d, clock, order, stamps)
    ensures StateHolds(env, Recover(env, d, order, stamps),
                       LiveAfter(Durable(live), Flat(Committed(d.log), order)), LastOf(stamps, clock))
  {
    hide StateHolds, LiveAfter, ApplyTxs, S.Load;
    FlatOk(env, Committed(d.log), order);
    RecoverHolds(env, d, live, clock, order, stamps);
  }

  lemma RestartReads(env: S.Env, d: Disk, live: Live, clock: U32, order: seq<TxID>, stamps: seq<U32>, key: Key, t: U32)
    requires EnvOk(env) && StateHolds(env, d.store, live, clock) && Replayable(env, d)
    requires Restart(d, clock, order, stamps)
    ensures S.Get(env.codec, Recover(env, d, order, stamps), key, t)
         == Reads(LiveAfter(Durable(live), Flat(Committed(d.log), order)), key, t)
    ensures S.Get(env.codec, S.Load(env.codec, d.store.files, d.store.snaps), key, t) == Reads(Durable(live), key, t)
  {
    hide LiveAfter, ApplyTxs, S.Load, S.Get, Holds;
    RestartHolds(env, d, live, clock, order, stamps);
    var now := LastOf(stamps, clock);
    GetFromMeaning(env, Recover(env, d, order, stamps), LiveAfter(Durable(live), Flat(Committed(d.log), order)), now,
        key, t);
    ReopenHolds(env, d.store.files, d.store.active, d.store.index, live, clock, d.store.snaps);
    GetFromMeaning(env, S.Load(env.codec, d.store.files, d.store.snaps), Durable(live), clock, key, t);
  }

  /** Readers tell any two meanings apart at some time. */
  lemma ReadersTell(a: Live, b: Live, k: Key)
    requires Durable(a) == a && Durable(b) == b && k != []
    requires forall t: U32 :: Reads(a, k, t) == Reads(b, k, t)
    ensures LookLive(a, k) == LookLive(b, k)
  {
    assert Reads(a, k, 0) == Reads(b, k, 0);
    if k in a {
      assert a[k] == Durable(a)[k] && b[k] == Durable(b)[k];
      var t: U32 := if a[k].ttl == 0 || 0 < b[k].ttl < a[k].ttl then b[k].ttl else a[k].ttl;
      assert Reads(a, k, t) == Reads(b, k, t);
    }
  }

  /** A clean restart, in whatever order the log is replayed, gives every reader at every time what
      it would get without the log if and only if the data on file are settled. */
  lemma RestartsKeepReadsIff(env: S.Env, d: Disk, live: Live, clock: U32)
    requires EnvOk(env) && StateHolds(env, d.store, live, clock) && Replayable(env, d)
    ensures RestartsKeepReads(env, d, clock) <==> Settled(Durable(live), Committed(d.log))
  {
    hide StateHolds, LiveAfter, Recover, S.Load, S.Get, Reads;
    var txs := Committed(d.log);
    RecoveryKeepsDataIff(Durable(live), txs);
    if Settled(Durable(live), txs) {
      forall order, stamps, key, t: U32 | Restart(d, clock, order, stamps)
        ensures S.Get(env.codec, Recover(env, d, order, stamps), key, t)
             == S.Get(env.codec, S.Load(env.codec, d.store.files, d.store.snaps), key, t)
      {
        RestartReads(env, d, live, clock, order, stamps, key, t);
      }
    }
    if RestartsKeepReads(env, d, clock) {
      forall order | Enumerates(order, txs) ensures LiveAfter(Durable(live), Flat(txs, order)) == Durable(live) {
        KeptIn(env, d, live, clock, order);
      }
    }
  }

  lemma KeptIn(env: S.Env, d: Disk, live: Live, clock: U32, order: seq<TxID>)
    requires EnvOk(env) && StateHolds(env, d.store, live, clock) && Replayable(env, d)
    requires RestartsKeepReads(env, d, clock) && Enumerates(order, Committed(d.log))
    ensures LiveAfter(Durable(live), Flat(Committed(d.log), order)) == Durable(live)
  {
    hide StateHolds, LiveAfter, Recover, S.Load, S.Get, Reads;
    var txs := Committed(d.log);
    var a, b := LiveAfter(Durable(live), Flat(txs, order)), Durable(live);
    DurableTwice(live);
    DurableAfter(b, Flat(txs, order));
    var stamps: seq<U32> := seq(|Flat(txs, order)|, _ => clock);
    assert Restart(d, clock, order, stamps);
    forall k: Bytes ensures LookLive(a, k) == LookLive(b, k) {
      if k == [] {
        ReplayLook(b, txs, order, k);
        EmptyKeyUntouched(txs, order);
      } else {
        forall t: U32 ensures Reads(a, k, t) == Reads(b, k, t) {
          RestartReads(env, d, live, clock, order, stamps, k, t);
        }
        ReadersTell(a, b, k);
      }
    }
    SameLive(a, b);
  }

  lemma {:induction false} EmptyKeyNet(ops: seq<TxOp>)
    ensures Net(ops, []).Untouched?
  {
    if ops != [] {
      EmptyKeyNet(ops[..|ops| - 1]);
    }
  }

  lemma EmptyKeyUntouched(txs: Txs, order: seq<TxID>)
    requires forall id :: id in order ==> id in txs
    ensures NetIn(txs, order, []).Untouched?
  {
    var t := NetInIsSomeNet(txs, order, []);
    if t in txs {
      EmptyKeyNet(txs[t]);
    }
  }

  // ---- when a restart keeps a Put ----

  /** No logged transaction touches the key but to put the same value, if the Put had no expiry. */
  ghost predicate PutUndisturbed(txs: Txs, key: Key, value: Bytes, deadline: U32) {
    forall id :: id in txs ==> Net(txs[id], key).Untouched? || (Net(txs[id], key) == Puts(value) && deadline == 0)
  }

  /** Whether, in every restart, the key reads at all times as the Put has left it. */
  ghost predicate RestartsFindPut(env: S.Env, d: Disk, clock: U32, key: Key, value: Bytes, deadline: U32) {
    forall order, stamps, t: U32 :: Restart(d, clock, order, stamps) ==>
      S.Get(env.codec, Recover(env, d, order, stamps), key, t) == if S.Expired(deadline, t) then None else Some(value)
  }

  /** A Put that a rebuild of the index finds is what every restart finds, the replay of the log
      included, if and only if the log leaves it undisturbed. */
  lemma PutSurvivesRestartsIff(env: S.Env, s: State, log: seq<Record>, live: Live, clock: U32,
                               key: Key, value: Bytes, ts: U32, deadline: U32)
    requires EnvOk(env) && StateHolds(env, s, live, clock) && key != [] && ItemOk(env, key, value)
    requires key in s.index ==> s.index[key].timestamp <= ts
    requires Replayable(env, Disk(S.Put(env, s, key, value, ts, deadline), log))
    ensures RestartsFindPut(env, Disk(S.Put(env, s, key, value, ts, deadline), log), Later(clock, ts), key, value,
        deadline)
      <==> PutUndisturbed(Committed(log), key, value, deadline)
  {
    hide StateHolds, S.Put, LiveAfter, Recover, S.Load, S.Get, Reads, Committed;
    var d, now := Disk(S.Put(env, s, key, value, ts, deadline), log), Later(clock, ts);
    var live' := live[key := Meaning(value, deadline, deadline)];
    LatePutHolds(env, s, live, clock, key, value, ts, deadline);
    forall order, stamps, t: U32 | Restart(d, now, order, stamps)
      ensures S.Get(env.codec, Recover(env, d, order, stamps), key, t)
           == ReadsOf(BecomesLive(NetIn(Committed(log), order, key), Some(Meaning(value, deadline, deadline))), t)
    {
      RestartReads(env, d, live', now, order, stamps, key, t);
      ReplayLook(Durable(live'), Committed(log), order, key);
      ReadsLook(LiveAfter(Durable(live'), Flat(Committed(log), order)), key, t);
    }
    if PutUndisturbed(Committed(log), key, value, deadline) {
      forall order, stamps, t: U32 | Restart(d, now, order, stamps)
        ensures S.Get(env.codec, Recover(env, d, order, stamps), key, t)
            == if S.Expired(deadline, t) then None else Some(value)
      {
        var id := NetInIsSomeNet(Committed(log), order, key);
      }
    }
    if RestartsFindPut(env, d, now, key, value, deadline) {
      forall id | id in Committed(log)
        ensures Net(Committed(log)[id], key).Untouched?
            || (Net(Committed(log)[id], key) == Puts(value) && deadline == 0)
      {
        var order := EnumerationEndingIn(Committed(log), id);
        var stamps: seq<U32> := seq(|Flat(Committed(log), order)|, _ => now);
        assert Restart(d, now, order, stamps);
        ReadsTellPut(BecomesLive(NetIn(Committed(log), order, key), Some(Meaning(value, deadline, deadline))), value,
            deadline);
      }
    }
  }

  function ReadsOf(m: Option<Meaning>, t: U32): Option<Bytes> {
    match m
    case None => None
    case Some(m) => if S.Expired(m.ttl, t) then None else Some(m.value)
  }

  lemma ReadsLook(live: Live, key: Key, t: U32)
    requires key != []
    ensures Reads(live, key, t) == ReadsOf(LookLive(live, key), t)
  {
  }

  /** Readers tell what a Put left from anything else. */
  lemma ReadsTellPut(m: Option<Meaning>, value: Bytes, deadline: U32)
    requires forall t: U32 :: ReadsOf(m, t) == if S.Expired(deadline, t) then None else Some(value)
    ensures m.Some? && m.value.value == value && m.value.ttl == deadline
  {
    assert ReadsOf(m, 0) == Some(value);
    var a := m.value.ttl;
    var t: U32 := if a == 0 || 0 < deadline < a then deadline else a;
    assert ReadsOf(m, t) == if S.Expired(deadline, t) then None else Some(value);
  }

  // ---- recovering again ----

  /** A second replay leaves what it alone would leave; under the first one's order, or when
      transactions agree, it changes nothing. */
  lemma LiveTwice(live: Live, txs: Txs, o1: seq<TxID>, o2: seq<TxID>)
    requires Enumerates(o1, txs) && Enumerates(o2, txs)
    ensures LiveAfter(LiveAfter(live, Flat(txs, o1)), Flat(txs, o2)) == LiveAfter(live, Flat(txs, o2))
    ensures o1 == o2 || Agree(txs) ==> LiveAfter(live, Flat(txs, o2)) == LiveAfter(live, Flat(txs, o1))
  {
    hide LiveAfter;
    var once := LiveAfter(live, Flat(txs, o1));
    forall k: Bytes
      ensures LookLive(LiveAfter(once, Flat(txs, o2)), k) == LookLive(LiveAfter(live, Flat(txs, o2)), k)
      ensures Agree(txs) ==> LookLive(LiveAfter(live, Flat(txs, o2)), k) == LookLive(once, k)
    {
      ReplayLook(live, txs, o1, k);
      ReplayLook(once, txs, o2, k);
      ReplayLook(live, txs, o2, k);
      var t := NetInIsSomeNet(txs, o1, k);
      var u := NetInIsSomeNet(txs, o2, k);
      if Agree(txs) && !NetIn(txs, o1, k).Untouched? && !NetIn(txs, o2, k).Untouched? {
        assert AgreeOn(txs, t, u, k);
      }
    }
    SameLive(LiveAfter(once, Flat(txs, o2)), LiveAfter(live, Flat(txs, o2)));
    if Agree(txs) {
      SameLive(LiveAfter(live, Flat(txs, o2)), once);
    }
  }

  /** Recover, then recover again from the files and the log as the first recovery left them, with
      any untagged records it added: under the same order, or when committed transactions agree,
      every key reads at every time as after the first. */
  lemma RecoveryIdempotent(env: S.Env, d: Disk, live: Live, clock: U32, o1: seq<TxID>, stamps1: seq<U32>,
                           added: seq<Record>, o2: seq<TxID>, stamps2: seq<U32>, key: Key, t: U32)
    requires EnvOk(env) && StateHolds(env, d.store, live, clock) && Replayable(env, d)
    requires Restart(d, clock, o1, stamps1) && forall r :: r in added ==> r.txID == []
    requires Restart(Disk(Recover(env, d, o1, stamps1), d.log + added), LastOf(stamps1, clock), o2, stamps2)
    requires o1 == o2 || Agree(Committed(d.log))
    ensures var once := Disk(Recover(env, d, o1, stamps1), d.log + added);
      S.Get(env.codec, Recover(env, once, o2, stamps2), key, t) == S.Get(env.codec, once.store, key, t)
  {
    hide StateHolds, LiveAfter, Recover, S.Load, S.Get, Reads;
    var txs, now := Committed(d.log), LastOf(stamps1, clock);
    var once, after := Disk(Recover(env, d, o1, stamps1), d.log + added), LiveAfter(Durable(live), Flat(txs, o1));
    UntaggedAddNothing(d.log, added);
    RestartHolds(env, d, live, clock, o1, stamps1);
    RestartReads(env, d, live, clock, o1, stamps1, key, t);
    RestartReads(env, once, after, now, o2, stamps2, key, t);
    DurableTwice(live);
    DurableAfter(Durable(live), Flat(txs, o1));
    LiveTwice(Durable(live), txs, o1, o2);
  }
}
