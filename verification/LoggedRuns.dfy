/** Whole runs of a database with a log: the operations of the store, transactions, and restarts that
    replay the log, against a plain map and a plain journal of transactions. */
module LoggedRuns {
  import opened Bytes
  import opened Codec
  import S = Store
  import opened Simulation
  import opened StoreSteps
  import StoreRuns
  import opened Wal
  import opened Replay
  import opened Transactions
  import Recovery

  type Key = S.Key

  /** An operation of the store with the untagged records it logs; a transaction, committed alone; a
      restart with the iteration order of its replay and the untagged records that logs. */
  datatype Op =
    | Data(op: StoreRuns.Op, notes: seq<Record>)
    | Transact(c: Commit)
    | Restart(order: seq<TxID>, stamps: seq<U32>, notes: seq<Record>)

  /** A plain map with its plain snapshots, and the operations of each transaction, failed ones included. */
  datatype Plain = Plain(world: World, journal: Txs)

  ghost function Step(env: S.Env, d: Disk, op: Op): Disk
    requires op.Transact? ==> WellFormed(op.c)
    requires op.Restart? ==> Enumerates(op.order, Committed(d.log)) && |op.stamps| == |Flat(Committed(d.log), op.order)|
  {
    match op
    case Data(op, notes) => Disk(StoreRuns.Step(env, d.store, op), d.log + notes)
    case Transact(c) => After(env, d, c, Finished(c))
    case Restart(order, stamps, notes) => Disk(Recover(env, d, order, stamps), d.log + notes)
  }

  /** A transaction applies what is before its first Put with an empty key, and is journalled whole; a
      restart loses expiries that are only in memory, and replays the whole journal. */
  function Means(p: Plain, op: Op): Plain
    requires op.Restart? ==> forall id :: id in op.order ==> id in p.journal
  {
    match op
    case Data(op, _) => p.(world := StoreRuns.Means(p.world, op))
    case Transact(c) =>
      Plain(p.world.(live := LiveAfter(p.world.live, c.ops[..Runnable(c.ops)])), p.journal[c.id := c.ops])
    case Restart(order, _, _) => p.(world := p.world.(live := LiveAfter(Durable(p.world.live), Flat(p.journal, order))))
  }

  predicate Untagged(notes: seq<Record>) {
    forall r :: r in notes ==> r.txID == []
  }

  ghost predicate Allowed(env: S.Env, d: Disk, op: Op, clock: U32) {
    match op
    case Data(op, notes) => !op.Reopen? && StoreRuns.Allowed(env, d.store, op, clock) && Untagged(notes)
    case Transact(c) =>
      WellFormed(c) && Fresh(c, d.log) && Timed(c.stamps, clock) && forall op :: op in c.ops ==> OpOk(env, op)
    case Restart(order, stamps, notes) => Recovery.Restart(d, clock, order, stamps) && Untagged(notes)
  }

  function ClockAfter(op: Op, clock: U32): U32 {
    match op
    case Data(op, _) => StoreRuns.ClockAfter(op, clock)
    case Transact(c) => if Runnable(c.ops) <= |c.stamps| then LastOf(c.stamps[..Runnable(c.ops)], clock) else clock
    case Restart(_, stamps, _) => LastOf(stamps, clock)
  }

  ghost predicate Stands(env: S.Env, d: Disk, p: Plain, clock: U32) {
    && Represents(env, d.store, p.world, clock)
    && Committed(d.log) == p.journal
    && forall id, op :: id in p.journal && op in p.journal[id] ==> OpOk(env, op)
  }

  // ---- snapshots stay ----

  lemma ApplyTxKeepsSnaps(env: S.Env, s: S.Store, op: TxOp, ts: U32)
    ensures ApplyTx(env, s, op, ts).snaps == s.snaps
  {
    hide S.PutEntry, S.TombstoneEntry;
  }

  lemma {:induction false} ApplyTxsKeepSnaps(env: S.Env, s: S.Store, ops: seq<TxOp>, stamps: seq<U32>)
    requires |ops| == |stamps|
    ensures ApplyTxs(env, s, ops, stamps).snaps == s.snaps
  {
    hide ApplyTx;
    if ops != [] {
      var n := |ops| - 1;
      ApplyTxsKeepSnaps(env, s, ops[..n], stamps[..n]);
      ApplyTxKeepsSnaps(env, ApplyTxs(env, s, ops[..n], stamps[..n]), ops[n], stamps[n]);
    }
  }

  lemma {:induction false} AfterKeepsSnaps(env: S.Env, d: Disk, c: Commit, at: Progress)
    requires WellFormed(c) && Reached(c, at)
    ensures After(env, d, c, at).store.snaps == d.store.snaps
    decreases at.sent + at.written + at.noted + if at.closed then 1 else 0
  {
    hide ApplyTx, IsProgram;
    if at.sent > 0 {
      var (before, m) := LastStep(c, at);
      AfterKeepsSnaps(env, d, c, before);
      if m.Write? {
        ApplyTxKeepsSnaps(env, After(env, d, c, before).store, m.op, m.ts);
      }
    }
  }

  lemma WithSnaps(env: S.Env, s: S.Store, w: World, clock: U32, s': S.Store, live: Live, clock': U32)
    requires Represents(env, s, w, clock) && clock <= clock'
    requires StoreRuns.StateHolds(env, s', live, clock') && s'.snaps == s.snaps
    ensures Represents(env, s', w.(live := live), clock')
  {
    StoreRuns.SnapsClock(env, s.snaps, w.snaps, clock, clock');
  }

  // ---- one step, and whole runs ----

  lemma StepStands(env: S.Env, d: Disk, p: Plain, clock: U32, op: Op)
    requires StoreRuns.EnvOk(env) && Stands(env, d, p, clock) && Allowed(env, d, op, clock)
    ensures Stands(env, Step(env, d, op), Means(p, op), ClockAfter(op, clock))
  {
    hide Represents, Committed, StoreRuns.StateHolds, After, LiveAfter, Recover;
    match op
    case Data(op, notes) =>
      StoreRuns.StepRepresents(env, d.store, p.world, clock, op);
      UntaggedAddNothing(d.log, notes);
    case Transact(c) =>
      LiveOf(env, d.store, p.world, clock);
      CommitOutcome(env, d, c, p.world.live, clock);
      AfterKeepsSnaps(env, d, c, Finished(c));
      WithSnaps(env, d.store, p.world, clock, After(env, d, c, Finished(c)).store,
                LiveAfter(p.world.live, c.ops[..Runnable(c.ops)]), LastOf(c.stamps[..Runnable(c.ops)], clock));
    case Restart(order, stamps, notes) =>
      LiveOf(env, d.store, p.world, clock);
      Recovery.RestartHolds(env, d, p.world.live, clock, order, stamps);
      RecoverKeepsSnaps(env, d, order, stamps);
      WithSnaps(env, d.store, p.world, clock, Recover(env, d, order, stamps),
                LiveAfter(Durable(p.world.live), Flat(Committed(d.log), order)), LastOf(stamps, clock));
      UntaggedAddNothing(d.log, notes);
  }

  lemma LiveOf(env: S.Env, s: S.Store, w: World, clock: U32)
    requires Represents(env, s, w, clock)
    ensures StoreRuns.StateHolds(env, s, w.live, clock)
  {
  }

  lemma RecoverKeepsSnaps(env: S.Env, d: Disk, order: seq<TxID>, stamps: seq<U32>)
    requires Enumerates(order, Committed(d.log)) && |stamps| == |Flat(Committed(d.log), order)|
    ensures Recover(env, d, order, stamps).snaps == d.store.snaps
  {
    ApplyTxsKeepSnaps(env, S.Load(env.codec, d.store.files, d.store.snaps), Flat(Committed(d.log), order), stamps);
  }

  ghost predicate AllowedRun(env: S.Env, d: Disk, ops: seq<Op>, clock: U32)
    decreases |ops|
  {
    ops != [] ==>
      && Allowed(env, d, ops[0], clock)
      && AllowedRun(env, Step(env, d, ops[0]), ops[1..], ClockAfter(ops[0], clock))
  }

  ghost function Run(env: S.Env, d: Disk, ops: seq<Op>, clock: U32): Disk
    requires AllowedRun(env, d, ops, clock)
    decreases |ops|
  {
    if ops == [] then d else Run(env, Step(env, d, ops[0]), ops[1..], ClockAfter(ops[0], clock))
  }

  /** The plain map after the same run, or None if a restart's order does not fit the journal. */
  ghost function RunMeans(p: Plain, ops: seq<Op>): Option<Plain>
    decreases |ops|
  {
    if ops == [] then Some(p)
    else if ops[0].Restart? && !Enumerates(ops[0].order, p.journal) then None
    else RunMeans(Means(p, ops[0]), ops[1..])
  }

  function RunClock(ops: seq<Op>, clock: U32): U32
    decreases |ops|
  {
    if ops == [] then clock else RunClock(ops[1..], ClockAfter(ops[0], clock))
  }

  /** Every run of a database with its log means what it means on a plain map and a plain journal:
      writes, batches, deletions, expiry, compactions, snapshots and restores, transactions, and restarts
      that rebuild the index and replay the log. */
  lemma {:induction false} RunStands(env: S.Env, d: Disk, p: Plain, clock: U32, ops: seq<Op>)
    requires StoreRuns.EnvOk(env) && Stands(env, d, p, clock) && AllowedRun(env, d, ops, clock)
    ensures RunMeans(p, ops).Some?
    ensures Stands(env, Run(env, d, ops, clock), RunMeans(p, ops).value, RunClock(ops, clock))
    decreases |ops|
  {
    hide Stands, Step, Means, ClockAfter;
    if ops != [] {
      StepStands(env, d, p, clock, ops[0]);
      SameJournal(env, d, p, clock);
      RunStands(env, Step(env, d, ops[0]), Means(p, ops[0]), ClockAfter(ops[0], clock), ops[1..]);
    }
  }

  lemma SameJournal(env: S.Env, d: Disk, p: Plain, clock: U32)
    requires Stands(env, d, p, clock)
    ensures Committed(d.log) == p.journal
  {
  }

  lemma StartStands(env: S.Env, clock: U32)
    ensures Stands(env, Disk(S.Load(env.codec, map[], map[]), []), Plain(World(map[], map[]), map[]), clock)
  {
    StoreRuns.StartRepresents(env, clock);
    assert TxIDs([]) == {};
  }

  /** So every read after any run from a new database on is the plain map's. */
  lemma RunReads(env: S.Env, ops: seq<Op>, clock: U32, key: Key, t: U32)
    requires StoreRuns.EnvOk(env) && AllowedRun(env, Disk(S.Load(env.codec, map[], map[]), []), ops, clock)
    ensures var start, p := Disk(S.Load(env.codec, map[], map[]), []), RunMeans(Plain(World(map[], map[]), map[]), ops);
      p.Some? && S.Get(env.codec, Run(env, start, ops, clock).store, key, t) == Reads(p.value.world.live, key, t)
  {
    hide S.Get, S.Load, Holds, Step, Means;
    var start, p := Disk(S.Load(env.codec, map[], map[]), []), Plain(World(map[], map[]), map[]);
    StartStands(env, clock);
    RunStands(env, start, p, clock, ops);
    GetFromMeaning(env, Run(env, start, ops, clock).store, RunMeans(p, ops).value.world.live, RunClock(ops, clock),
        key, t);
  }
}
