/** Crash atomicity down to the byte: a commit is stopped anywhere, inside a log record or inside
    an append to a data file too; then the database is opened from the bytes on disk. */
module Crashes {
  import opened Bytes
  import opened Codec
  import opened Entry
  import S = Store
  import opened Simulation
  import opened StoreSteps
  import opened StoreRuns
  import opened StoreTheorems
  import opened Wal
  import opened Replay
  import opened Transactions

  // ---- what is on disk ----

  /** Data files, snapshots and the log file. Memory is gone. */
  datatype Image = Image(files: S.Files, snaps: map<nat, S.Files>, log: Bytes)

  /** What the crash interrupted: the first `sent` bytes of the frame of a log record, and the first
      `written` bytes of a data file entry, which may have been the first of a new file. */
  datatype Tear = Tear(next: Record, sent: nat, rotated: bool, entry: Entry, written: nat)

  predicate Partial(j: Json, tear: Tear) {
    Writable(j, tear.next) && tear.sent < |Frame(j, tear.next)| && tear.written < Size(tear.entry)
  }

  function ImageOf(j: Json, d: Disk, tear: Tear): Image
    requires Partial(j, tear)
  {
    Image(TornFiles(d.store, tear.rotated, tear.entry, tear.written), d.store.snaps,
          Wal.Log(j, d.log) + Frame(j, tear.next)[..tear.sent])
  }

  /** An iteration order over the transactions the log commits, and a clock reading for each
      operation they replay; none are needed for a log that cannot be read. */
  ghost predicate Opening(j: Json, image: Image, order: seq<TxID>, stamps: seq<U32>) {
    match Parse(j, image.log, [])
    case None => true
    case Some(rs) => Enumerates(order, Committed(rs)) && |stamps| == |Flat(Committed(rs), order)|
  }

  /** NewGojiDB: rebuild the index, open the newest file, read the log and replay it; an unreadable
      log is an error. */
  ghost function Open(env: S.Env, j: Json, image: Image, order: seq<TxID>, stamps: seq<U32>): Option<State>
    requires Opening(j, image, order, stamps)
  {
    match Parse(j, image.log, [])
    case None => None
    case Some(rs) => Some(ApplyTxs(env, S.Load(env.codec, image.files, image.snaps), Flat(Committed(rs), order),
        stamps))
  }

  /** Every record the commit may log, or has found in the log, can be read back. */
  ghost predicate AllWritable(j: Json, d: Disk, c: Commit) {
    && LawfulJson(j)
    && (forall r :: r in d.log ==> Writable(j, r))
    && (forall r :: r in c.program ==> Writable(j, r))
    && (forall r :: r in c.notes ==> Writable(j, r))
    && Writable(j, c.finalNote)
  }

  lemma {:induction false} LoggedWritable(env: S.Env, j: Json, d: Disk, c: Commit, at: Progress)
    requires WellFormed(c) && Reached(c, at) && AllWritable(j, d, c)
    ensures forall r :: r in After(env, d, c, at).log ==> Writable(j, r)
    decreases at.sent + at.written + at.noted + if at.closed then 1 else 0
  {
    hide ApplyTx, IsProgram, Writable;
    if at.sent > 0 {
      LoggedWritable(env, j, d, c, LastStep(c, at).0);
    }
  }

  // ---- replay into files with a torn tail ----

  lemma RotateServes(env: S.Env, s: State, live: Live, size: nat)
    requires Serves(env, s, live)
    ensures Serves(env, S.RotateFor(env, s, size), live)
  {
    hide S.ReadValue;
    var s' := S.RotateFor(env, s, size);
    forall k: Key ensures KeyServes(env, s'.files, s'.index, live, k) {
      assert KeyServes(env, s.files, s.index, live, k);
      if k in live {
        ReadGrows(env.codec, s.files, s'.files, s.index[k]);
      }
    }
  }

  lemma WriteServes(env: S.Env, s: State, live: Live, e: Entry, value: Bytes)
    requires Serves(env, s, live) && Sized(e) && Decompress(env.codec, e.value, e.compression) == Some(value)
    ensures Serves(env, S.WriteEntry(s, e.key, e), live[e.key := Meaning(value, e.ttl, e.ttl)])
  {
    hide Serialize, Decompress, S.ReadAt;
    var s', b := S.WriteEntry(s, e.key, e), s.files[s.active];
    var live' := live[e.key := Meaning(value, e.ttl, e.ttl)];
    ReadAppended(env.codec, s'.files, s.active, b, e);
    assert s'.index[e.key] == S.Pointer(env.codec, s.active, |b|, e).(deleted := false);
    SameBytes(s'.files, S.Pointer(env.codec, s.active, |b|, e), s'.index[e.key]);
    forall k: Key ensures KeyServes(env, s'.files, s'.index, live', k) {
      assert KeyServes(env, s.files, s.index, live, k);
      if k != e.key && k in live {
        ReadGrows(env.codec, s.files, s'.files, s.index[k]);
      }
    }
  }

  lemma PutServes(env: S.Env, s: State, live: Live, key: Key, value: Bytes, ts: U32)
    requires Lawful(env.codec) && Serves(env, s, live)
    requires |key| < TWO16 && |Compress(env.codec, env.compression, value).0| < TWO32
    ensures Serves(env, S.Put(env, s, key, value, ts, 0), Written(live, key, value, 0))
  {
    hide Serves, S.WriteEntry, S.RotateFor;
    if key != [] {
      var e := S.PutEntry(env, key, value, ts, 0);
      CompressRoundTrip(env.codec, env.compression, value);
      RotateServes(env, s, live, Size(e));
      WriteServes(env, S.RotateFor(env, s, Size(e)), live, e, value);
    }
  }

  lemma DeleteServes(env: S.Env, s: State, live: Live, key: Key, ts: U32)
    requires Serves(env, s, live)
    ensures Serves(env, S.Delete(env, s, key, ts), if key == [] then live else live - {key})
  {
    hide Serialize, S.TombstoneEntry, S.ReadValue;
    var s', live' := S.Delete(env, s, key, ts), if key == [] then live else live - {key};
    forall k: Key ensures KeyServes(env, s'.files, s'.index, live', k) {
      assert KeyServes(env, s.files, s.index, live, k);
      if k in live' {
        ReadGrows(env.codec, s.files, s'.files, s.index[k]);
      }
    }
  }

  lemma {:induction false} ApplyTxsServe(env: S.Env, s: State, live: Live, ops: seq<TxOp>, stamps: seq<U32>)
    requires Lawful(env.codec) && Serves(env, s, live) && |ops| == |stamps|
    requires forall op :: op in ops ==> OpOk(env, op)
    ensures Serves(env, ApplyTxs(env, s, ops, stamps), LiveAfter(live, ops))
  {
    hide Serves, S.Put, S.Delete, Written, S.Get;
    if ops != [] {
      var n := |ops| - 1;
      ApplyTxsServe(env, s, live, ops[..n], stamps[..n]);
      assert ops[n] in ops;
      var s1, live1 := ApplyTxs(env, s, ops[..n], stamps[..n]), LiveAfter(live, ops[..n]);
      match ops[n]
      case PutOp(key, value) => PutServes(env, s1, live1, key, value, stamps[n]);
      case DeleteOp(key) => DeleteServes(env, s1, live1, key, stamps[n]);
    }
  }

  // ---- crash atomicity ----

  predicate Touches(ops: seq<TxOp>, k: Bytes) {
    !Net(ops, k).Untouched?
  }

  /** No transaction already committed in the log touches the key. */
  ghost predicate Quiet(txs: Txs, k: Bytes) {
    forall t :: t in txs ==> !Touches(txs[t], k)
  }

  /** With all others quiet on a key, this transaction alone decides it, in any order. */
  lemma NetWithOthersQuiet(txs: Txs, id: TxID, ops: seq<TxOp>, order: seq<TxID>, k: Bytes)
    requires id !in txs && Quiet(txs, k) && Enumerates(order, txs[id := ops])
    ensures NetIn(txs[id := ops], order, k) == Net(ops, k)
  {
    var all := txs[id := ops];
    var t := NetInIsSomeNet(all, order, k);
    assert id in order;
    assert all[id] == ops;
    forall u | u in txs ensures Net(all[u], k).Untouched? {
      assert !Touches(txs[u], k) && u != id;
    }
  }

  lemma NetWhenQuiet(txs: Txs, order: seq<TxID>, k: Bytes)
    requires Quiet(txs, k) && Enumerates(order, txs)
    ensures NetIn(txs, order, k).Untouched?
  {
    var t := NetInIsSomeNet(txs, order, k);
    forall u | u in txs ensures Net(txs[u], k).Untouched? {
      assert !Touches(txs[u], k);
    }
  }

  /** The meaning of the recovered state, key by key. */
  lemma CrashedKey(env: S.Env, d: Disk, c: Commit, at: Progress, live: Live, order: seq<TxID>, k: Bytes)
    requires WellFormed(c) && Fresh(c, d.log) && Reached(c, at)
    requires Quiet(Committed(d.log), k)
    requires Enumerates(order, Committed(After(env, d, c, at).log))
    ensures var recovered := LiveAfter(Durable(LiveAfter(live, c.ops[..at.written])),
                                       Flat(Committed(After(env, d, c, at).log), order));
      LookLive(recovered, k) ==
        if at.sent < |c.program| then LookLive(Durable(live), k) else LookLive(LiveAfter(Durable(live), c.ops), k)
  {
    var a, txs := at.written, Committed(After(env, d, c, at).log);
    var crashed := LiveAfter(live, c.ops[..a]);
    AfterLog(env, d, c, at);
    CommittedInShape(c, d.log, After(env, d, c, at).log, at.sent);
    LiveAfterLook(Durable(crashed), Flat(txs, order), k);
    NetFlat(txs, order, k);
    LiveAfterLook(live, c.ops[..a], k);
    LiveAfterLook(Durable(live), c.ops, k);
    if at.sent < |c.program| {
      NetWhenQuiet(txs, order, k);
      assert c.ops[..0] == [];
    } else {
      assert c.id !in Committed(d.log);
      NetWithOthersQuiet(Committed(d.log), c.id, c.ops, order, k);
      if !Touches(c.ops, k) {
        NetOfPrefix(c.ops, a, k);
      }
    }
  }

  lemma CrashedServes(env: S.Env, d: Disk, c: Commit, at: Progress, live: Live, clock: U32, tear: Tear,
                      order: seq<TxID>, stamps: seq<U32>)
    requires EnvOk(env) && StateHolds(env, d.store, live, clock)
    requires WellFormed(c) && Fresh(c, d.log) && Reached(c, at) && Timed(c.stamps, clock)
    requires forall op :: op in c.ops ==> OpOk(env, op)
    requires forall id, op :: id in Committed(d.log) && op in Committed(d.log)[id] ==> OpOk(env, op)
    requires tear.written < Size(tear.entry)
    requires var txs := Committed(After(env, d, c, at).log);
      Enumerates(order, txs) && |stamps| == |Flat(txs, order)|
    ensures var s, txs := After(env, d, c, at).store, Committed(After(env, d, c, at).log);
      Serves(env,
          ApplyTxs(env, S.Load(env.codec, TornFiles(s, tear.rotated, tear.entry, tear.written), s.snaps),
              Flat(txs, order), stamps),
             LiveAfter(Durable(LiveAfter(live, c.ops[..at.written])), Flat(txs, order)))
  {
    hide ApplyTx, ApplyTxs, LiveAfter, IsProgram, S.Load, After, Serves, TornFiles, StateHolds, Durable;
    var crash, a := After(env, d, c, at), at.written;
    AfterStore(env, d, c, at, live, clock);
    AfterLog(env, d, c, at);
    CommittedInShape(c, d.log, crash.log, at.sent);
    FlatOk(env, Committed(crash.log), order);
    TornServes(env, crash.store, LiveAfter(live, c.ops[..a]), LastOf(c.stamps[..a], clock),
               tear.rotated, tear.entry, tear.written, crash.store.snaps);
    ApplyTxsServe(env,
        S.Load(env.codec, TornFiles(crash.store, tear.rotated, tear.entry, tear.written), crash.store.snaps),
                  Durable(LiveAfter(live, c.ops[..a])), Flat(Committed(crash.log), order), stamps);
  }

  /** Crash atomicity, for logs flushed record by record: stop Commit at any byte it writes and open
      the database from what is on disk. If a log record was cut, it refuses to open. Otherwise, in
      any iteration order, on every key no other logged transaction touches, a reader finds exactly
      what was there before the commit, or exactly what the whole transaction leaves there: the
      former before its tagged commit record is logged, the latter from then on, however many of its
      writes had reached the files. (An expiry that SetTTL had set only in memory is lost, as in any
      restart.) */
  lemma CrashAtomicity(env: S.Env, j: Json, d: Disk, c: Commit, at: Progress, tear: Tear, live: Live, clock: U32,
                       order: seq<TxID>, stamps: seq<U32>)
    requires EnvOk(env) && StateHolds(env, d.store, live, clock)
    requires WellFormed(c) && Fresh(c, d.log) && Reached(c, at) && Timed(c.stamps, clock)
    requires AllWritable(j, d, c) && Partial(j, tear)
    requires forall op :: op in c.ops ==> OpOk(env, op)
    requires forall id, op :: id in Committed(d.log) && op in Committed(d.log)[id] ==> OpOk(env, op)
    requires Opening(j, ImageOf(j, After(env, d, c, at), tear), order, stamps)
    ensures var result := Open(env, j, ImageOf(j, After(env, d, c, at), tear), order, stamps);
      && (result.None? <==> tear.sent > 0)
      && (result.Some? ==> forall k, t: U32 :: Quiet(Committed(d.log), k) ==>
           S.Get(env.codec, result.value, k, t)
           == Reads(if at.sent < |c.program| then Durable(live) else LiveAfter(Durable(live), c.ops), k, t))
  {
    hide ApplyTx, ApplyTxs, LiveAfter, IsProgram, S.Load, S.Get, After, Serves, TornFiles, StateHolds, Reads, Quiet;
    var crash := After(env, d, c, at);
    LoggedWritable(env, j, d, c, at);
    ParseTorn(j, crash.log, tear.next, tear.sent);
    if tear.sent == 0 {
      CrashedServes(env, d, c, at, live, clock, tear, order, stamps);
      var result := Open(env, j, ImageOf(j, crash, tear), order, stamps).value;
      var recovered := LiveAfter(Durable(LiveAfter(live, c.ops[..at.written])), Flat(Committed(crash.log), order));
      forall k, t: U32 | Quiet(Committed(d.log), k)
        ensures S.Get(env.codec, result, k, t)
             == Reads(if at.sent < |c.program| then Durable(live) else LiveAfter(Durable(live), c.ops), k, t)
      {
        ServesReads(env, result, recovered, k, t);
        CrashedKey(env, d, c, at, live, order, k);
        SameLookSameRead(recovered, if at.sent < |c.program| then Durable(live) else LiveAfter(Durable(live), c.ops),
            k, t);
      }
    }
  }

  lemma SameLookSameRead(a: Live, b: Live, k: Key, t: U32)
    requires LookLive(a, k) == LookLive(b, k)
    ensures Reads(a, k, t) == Reads(b, k, t)
  {
  }
}
