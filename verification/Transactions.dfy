/** Commit of transaction.go as a step machine over the data files and the write-ahead log, with a
    crash possible after every step, and the recovery that follows. */
module Transactions {
  import opened Bytes
  import opened Codec
  import S = Store
  import opened Simulation
  import opened StoreSteps
  import opened StoreRuns
  import opened Wal
  import opened Replay

  // ---- transaction operations on the store ----

  /** Put without expiry, or Delete; refusals (empty key, unknown key) leave the store alone. */
  function ApplyTx(env: S.Env, s: State, op: TxOp, ts: U32): State {
    match op
    case PutOp(key, value) => S.Put(env, s, key, value, ts, 0)
    case DeleteOp(key) => S.Delete(env, s, key, ts)
  }

  function ApplyTxs(env: S.Env, s: State, ops: seq<TxOp>, stamps: seq<U32>): State
    requires |ops| == |stamps|
  {
    if ops == [] then s
    else ApplyTx(env, ApplyTxs(env, s, ops[..|ops| - 1], stamps[..|ops| - 1]), ops[|ops| - 1], stamps[|ops| - 1])
  }

  /** Put refuses the empty key, Delete also the keys the index has never seen. */
  predicate Accepted(s: State, op: TxOp) {
    op.key != [] && (op.PutOp? || op.key in s.index)
  }

  /** The operations that are accepted on the way; each logs a record of its own. */
  function AcceptedOps(env: S.Env, s: State, ops: seq<TxOp>, stamps: seq<U32>): seq<TxOp>
    requires |ops| == |stamps|
  {
    if ops == [] then []
    else
      var n := |ops| - 1;
      AcceptedOps(env, s, ops[..n], stamps[..n])
      + if Accepted(ApplyTxs(env, s, ops[..n], stamps[..n]), ops[n]) then [ops[n]] else []
  }

  function LiveOp(live: Live, op: TxOp): Live {
    match op
    case PutOp(key, value) => Written(live, key, value, 0)
    case DeleteOp(key) => if key == [] then live else live - {key}
  }

  function LiveAfter(live: Live, ops: seq<TxOp>): Live {
    if ops == [] then live else LiveOp(LiveAfter(live, ops[..|ops| - 1]), ops[|ops| - 1])
  }

  predicate OpOk(env: S.Env, op: TxOp) {
    op.PutOp? ==> ItemOk(env, op.key, op.value)
  }

  /** Clock readings that do not go backwards, from `clock` on. */
  predicate Timed(stamps: seq<U32>, clock: U32) {
    && (forall i :: 0 <= i < |stamps| ==> clock <= stamps[i])
    && (forall i, j :: 0 <= i < j < |stamps| ==> stamps[i] <= stamps[j])
  }

  function LastOf(stamps: seq<U32>, clock: U32): U32 {
    if stamps == [] then clock else stamps[|stamps| - 1]
  }

  lemma ApplyTxHolds(env: S.Env, s: State, live: Live, clock: U32, op: TxOp, ts: U32)
    requires EnvOk(env) && StateHolds(env, s, live, clock) && OpOk(env, op) && clock <= ts
    ensures StateHolds(env, ApplyTx(env, s, op, ts), LiveOp(live, op), ts)
  {
    match op
    case PutOp(key, value) => PutHolds(env, s, live, clock, key, value, ts, 0);
    case DeleteOp(key) => DeleteHolds(env, s, live, clock, key, ts);
  }

  lemma {:induction false} ApplyTxsHold(env: S.Env, s: State, live: Live, clock: U32, ops: seq<TxOp>, stamps: seq<U32>)
    requires EnvOk(env) && StateHolds(env, s, live, clock)
    requires |ops| == |stamps| && Timed(stamps, clock) && forall op :: op in ops ==> OpOk(env, op)
    ensures StateHolds(env, ApplyTxs(env, s, ops, stamps), LiveAfter(live, ops), LastOf(stamps, clock))
  {
    if ops != [] {
      var n := |ops| - 1;
      ApplyTxsHold(env, s, live, clock, ops[..n], stamps[..n]);
      assert ops[n] in ops;
      ApplyTxHolds(env, ApplyTxs(env, s, ops[..n], stamps[..n]), LiveAfter(live, ops[..n]),
                   LastOf(stamps[..n], clock), ops[n], stamps[n]);
    }
  }

  // ---- one key at a time ----

  function LookLive(live: Live, k: Bytes): Option<Meaning> {
    if k in live then Some(live[k]) else None
  }

  function BecomesLive(e: Effect, before: Option<Meaning>): Option<Meaning> {
    match e
    case Untouched => before
    case Puts(v) => Some(Meaning(v, 0, 0))
    case Removes => None
  }

  lemma {:induction false} LiveAfterLook(live: Live, ops: seq<TxOp>, k: Bytes)
    ensures LookLive(LiveAfter(live, ops), k) == BecomesLive(Net(ops, k), LookLive(live, k))
  {
    if ops != [] {
      LiveAfterLook(live, ops[..|ops| - 1], k);
    }
  }

  lemma {:induction false} NetConcat(a: seq<TxOp>, b: seq<TxOp>, k: Bytes)
    ensures Net(a + b, k) == if Net(b, k).Untouched? then Net(a, k) else Net(b, k)
  {
    if b == [] {
      assert a + b == a;
    } else {
      assert (a + b)[..|a + b| - 1] == a + b[..|b| - 1];
      NetConcat(a, b[..|b| - 1], k);
    }
  }

  lemma NetOfPrefix(ops: seq<TxOp>, n: nat, k: Bytes)
    requires n <= |ops| && Net(ops, k).Untouched?
    ensures Net(ops[..n], k).Untouched?
  {
    assert ops == ops[..n] + ops[n..];
    NetConcat(ops[..n], ops[n..], k);
  }

  // ---- recovery ----

  /** The operations recovery issues, transaction after transaction. */
  function Flat(txs: Txs, order: seq<TxID>): seq<TxOp>
    requires forall id :: id in order ==> id in txs
  {
    if order == [] then []
    else
      assert order[|order| - 1] in order;
      Flat(txs, order[..|order| - 1]) + txs[order[|order| - 1]]
  }

  lemma {:induction false} NetFlat(txs: Txs, order: seq<TxID>, k: Bytes)
    requires forall id :: id in order ==> id in txs
    ensures Net(Flat(txs, order), k) == NetIn(txs, order, k)
  {
    if order != [] {
      var init, last := order[..|order| - 1], order[|order| - 1];
      assert last in order;
      NetFlat(txs, init, k);
      NetConcat(Flat(txs, init), txs[last], k);
    }
  }

  /** What a crash leaves: the data files and the log. */
  datatype Disk = Disk(store: State, log: seq<Record>)

  /** Reopen after a crash: rebuild the index, then replay what the log commits. */
  ghost function Recover(env: S.Env, d: Disk, order: seq<TxID>, stamps: seq<U32>): State
    requires Enumerates(order, Committed(d.log)) && |stamps| == |Flat(Committed(d.log), order)|
  {
    ApplyTxs(env, S.Load(env.codec, d.store.files, d.store.snaps), Flat(Committed(d.log), order), stamps)
  }

  lemma RecoverHolds(env: S.Env, d: Disk, live: Live, clock: U32, order: seq<TxID>, stamps: seq<U32>)
    requires EnvOk(env) && StateHolds(env, d.store, live, clock)
    requires Enumerates(order, Committed(d.log)) && |stamps| == |Flat(Committed(d.log), order)| && Timed(stamps, clock)
    requires forall op :: op in Flat(Committed(d.log), order) ==> OpOk(env, op)
    ensures StateHolds(env, Recover(env, d, order, stamps),
                       LiveAfter(Durable(live), Flat(Committed(d.log), order)), LastOf(stamps, clock))
  {
    ReopenHolds(env, d.store.files, d.store.active, d.store.index, live, clock, d.store.snaps);
    ApplyTxsHold(env, S.Load(env.codec, d.store.files, d.store.snaps), Durable(live), clock,
                 Flat(Committed(d.log), order), stamps);
  }

  /** The values without their expiries. */
  function Values(live: Live): Data {
    map k | k in live :: live[k].value
  }

  /** On values, what recovery does to the database is what `Replay` says of its log. */
  lemma RecoveredValues(live: Live, txs: Txs, order: seq<TxID>)
    requires forall id :: id in order ==> id in txs
    ensures Values(LiveAfter(Durable(live), Flat(txs, order))) == ReplayIn(Values(live), txs, order)
  {
    var recovered := LiveAfter(Durable(live), Flat(txs, order));
    forall k: Bytes ensures Look(Values(recovered), k) == Look(ReplayIn(Values(live), txs, order), k) {
      LiveAfterLook(Durable(live), Flat(txs, order), k);
      NetFlat(txs, order, k);
      ReplayInLook(Values(live), txs, order, k);
      ValuesLook(recovered, k);
      ValuesLook(live, k);
      ValuesLook(Durable(live), k);
    }
    SameLooks(Values(recovered), ReplayIn(Values(live), txs, order));
  }

  lemma ValuesLook(live: Live, k: Bytes)
    ensures Look(Values(live), k) == match LookLive(live, k) case Some(m) => Some(m.value) case None => None
    ensures Look(Values(Durable(live)), k) == Look(Values(live), k)
  {
  }

  // ---- Commit ----

  /** How many operations Commit gets through: it stops with an error at a Put with an empty key. */
  function Runnable(ops: seq<TxOp>): (n: nat)
    ensures n <= |ops|
    ensures n == |ops| <==> forall op :: op in ops ==> !(op.PutOp? && op.key == [])
  {
    if ops == [] then 0
    else if ops[0].PutOp? && ops[0].key == [] then
      assert ops[0] in ops; 0
    else
      assert ops == [ops[0]] + ops[1..];
      1 + Runnable(ops[1..])
  }

  /** One commit: the tagged records, then for each operation a clock reading and the untagged
      record that Put or Delete logs by itself, then an untagged commit note. */
  datatype Commit = Commit(id: TxID, ops: seq<TxOp>, program: seq<Record>, stamps: seq<U32>,
                           notes: seq<Record>, finalNote: Record)

  predicate WellFormed(c: Commit) {
    && c.id != []
    && IsProgram(c.program, c.id, c.ops)
    && |c.stamps| == |c.notes| == |c.ops|
    && (forall r :: r in c.notes ==> r.txID == [])
    && c.finalNote.txID == []
  }

  datatype MicroStep = Log(r: Record) | Write(op: TxOp, ts: U32) | Note(op: TxOp, r: Record)

  /** How far a commit has come: tagged records logged, operations written to the data files,
      operations noted in the log, and whether the final note is logged. */
  datatype Progress = Progress(sent: nat, written: nat, noted: nat, closed: bool)

  /** The points of a commit, in the order Commit reaches them; a crash may stop it at any. */
  predicate Reached(c: Commit, at: Progress) {
    && at.sent <= |c.program|
    && at.noted <= at.written <= at.noted + 1
    && at.written <= Runnable(c.ops)
    && (at.written > 0 ==> at.sent == |c.program|)
    && (at.closed ==> at.noted == |c.ops| && at.sent == |c.program|)
  }

  function Finished(c: Commit): Progress {
    var n := Runnable(c.ops);
    Progress(|c.program|, n, n, n == |c.ops|)
  }

  /** The step that led to a point, and the point before it. */
  function LastStep(c: Commit, at: Progress): (m: (Progress, MicroStep))
    requires WellFormed(c) && Reached(c, at) && at.sent > 0
    ensures Reached(c, m.0)
  {
    if at.closed then (at.(closed := false), Log(c.finalNote))
    else if 0 < at.noted == at.written then
      (at.(noted := at.noted - 1), Note(c.ops[at.noted - 1], c.notes[at.noted - 1]))
    else if 0 < at.written then
      (at.(written := at.written - 1), Write(c.ops[at.written - 1], c.stamps[at.written - 1]))
    else (at.(sent := at.sent - 1), Log(c.program[at.sent - 1]))
  }

  /** A Delete of a key the index has never seen logs nothing. */
  function Exec(env: S.Env, d: Disk, m: MicroStep): Disk {
    match m
    case Log(r) => d.(log := d.log + [r])
    case Write(op, ts) => d.(store := ApplyTx(env, d.store, op, ts))
    case Note(op, r) => if op.key != [] && op.key in d.store.index then d.(log := d.log + [r]) else d
  }

  /** The disk when the commit has come that far. */
  function After(env: S.Env, d: Disk, c: Commit, at: Progress): Disk
    requires WellFormed(c) && Reached(c, at)
    decreases at.sent + at.written + at.noted + if at.closed then 1 else 0
  {
    if at.sent == 0 then d
    else
      var (before, m) := LastStep(c, at);
      Exec(env, After(env, d, c, before), m)
  }

  /** `log` is the old log, the first `sent` tagged records, and untagged records. */
  ghost predicate LogShape(c: Commit, oldLog: seq<Record>, log: seq<Record>, sent: nat)
    requires sent <= |c.program|
  {
    var tagged := oldLog + c.program[..sent];
    tagged <= log && forall i :: |tagged| <= i < |log| ==> log[i].txID == []
  }

  lemma LogShapeAppend(c: Commit, oldLog: seq<Record>, log: seq<Record>, r: Record)
    requires LogShape(c, oldLog, log, |c.program|) && r.txID == []
    ensures LogShape(c, oldLog, log + [r], |c.program|)
  {
  }

  /** Until the tagged commit is logged, nothing but the log has changed. */
  lemma {:induction false} LoggingPhase(env: S.Env, d: Disk, c: Commit, n: nat)
    requires WellFormed(c) && n <= |c.program|
    ensures After(env, d, c, Progress(n, 0, 0, false)) == Disk(d.store, d.log + c.program[..n])
  {
    if n == 0 {
      assert d.log + c.program[..0] == d.log;
    } else {
      LoggingPhase(env, d, c, n - 1);
      assert d.log + c.program[..n] == (d.log + c.program[..n - 1]) + [c.program[n - 1]];
    }
  }

  lemma LogStep(env: S.Env, before: Disk, c: Commit, at: Progress, oldLog: seq<Record>)
    requires WellFormed(c) && Reached(c, at) && at.sent == |c.program| && (at.written > 0 || at.closed)
    requires LogShape(c, oldLog, before.log, |c.program|)
    ensures LogShape(c, oldLog, Exec(env, before, LastStep(c, at).1).log, |c.program|)
  {
    var m := LastStep(c, at).1;
    if !m.Write? {
      assert m.r == c.finalNote || m.r in c.notes;
      LogShapeAppend(c, oldLog, before.log, m.r);
    }
  }

  lemma {:induction false} AfterLog(env: S.Env, d: Disk, c: Commit, at: Progress)
    requires WellFormed(c) && Reached(c, at)
    ensures LogShape(c, d.log, After(env, d, c, at).log, at.sent)
    decreases at.sent + at.written + at.noted + if at.closed then 1 else 0
  {
    if at.written == 0 && !at.closed {
      LoggingPhase(env, d, c, at.sent);
    } else {
      var before := LastStep(c, at).0;
      AfterLog(env, d, c, before);
      LogStep(env, After(env, d, c, before), c, at, d.log);
    }
  }

  ghost predicate StoreAfter(env: S.Env, s: State, c: Commit, a: nat, live: Live, clock: U32)
    requires WellFormed(c) && a <= |c.ops|
  {
    StateHolds(env, s, LiveAfter(live, c.ops[..a]), LastOf(c.stamps[..a], clock))
  }

  lemma {:induction false} AfterStore(env: S.Env, d: Disk, c: Commit, at: Progress, live: Live, clock: U32)
    requires EnvOk(env) && StateHolds(env, d.store, live, clock)
    requires WellFormed(c) && Reached(c, at) && Timed(c.stamps, clock)
    requires forall op :: op in c.ops ==> OpOk(env, op)
    ensures StoreAfter(env, After(env, d, c, at).store, c, at.written, live, clock)
    decreases at.sent + at.written + at.noted + if at.closed then 1 else 0
  {
    if at.sent > 0 {
      var before := LastStep(c, at).0;
      AfterStore(env, d, c, before, live, clock);
      StoreStep(env, After(env, d, c, before), c, at, live, clock);
    }
  }

  lemma StoreStep(env: S.Env, before: Disk, c: Commit, at: Progress, live: Live, clock: U32)
    requires EnvOk(env) && WellFormed(c) && Reached(c, at) && at.sent > 0 && Timed(c.stamps, clock)
    requires forall op :: op in c.ops ==> OpOk(env, op)
    requires StoreAfter(env, before.store, c, LastStep(c, at).0.written, live, clock)
    ensures StoreAfter(env, Exec(env, before, LastStep(c, at).1).store, c, at.written, live, clock)
  {
    hide ApplyTx, LiveAfter, StoreAfter, IsProgram;
    if LastStep(c, at).1.Write? {
      WriteStep(env, before.store, c, at.written - 1, live, clock);
    }
  }

  lemma WriteStep(env: S.Env, s: State, c: Commit, a: nat, live: Live, clock: U32)
    requires EnvOk(env) && WellFormed(c) && a < |c.ops| && Timed(c.stamps, clock)
    requires forall op :: op in c.ops ==> OpOk(env, op)
    requires StoreAfter(env, s, c, a, live, clock)
    ensures StoreAfter(env, ApplyTx(env, s, c.ops[a], c.stamps[a]), c, a + 1, live, clock)
  {
    hide ApplyTx, LiveAfter, LiveOp, StateHolds, IsProgram;
    PrefixStep(c, a, live, clock);
    assert c.ops[a] in c.ops;
    ApplyTxHolds(env, s, LiveAfter(live, c.ops[..a]), LastOf(c.stamps[..a], clock), c.ops[a], c.stamps[a]);
  }

  lemma PrefixStep(c: Commit, a: nat, live: Live, clock: U32)
    requires WellFormed(c) && a < |c.ops| && Timed(c.stamps, clock)
    ensures LiveAfter(live, c.ops[..a + 1]) == LiveOp(LiveAfter(live, c.ops[..a]), c.ops[a])
    ensures LastOf(c.stamps[..a], clock) <= LastOf(c.stamps[..a + 1], clock) == c.stamps[a]
  {
    assert c.ops[..a + 1][..a] == c.ops[..a];
  }

  // ---- what the crashed log commits ----

  /** A transaction id that has not been used before. */
  predicate Fresh(c: Commit, oldLog: seq<Record>) {
    c.id !in TxIDs(oldLog)
  }

  lemma {:induction false} NoTagOutside(rs: seq<Record>, id: TxID)
    requires id != [] && forall r :: r in rs ==> r.txID != id
    ensures Tagged(rs, id) == []
  {
    if rs != [] {
      assert rs[|rs| - 1] in rs;
      NoTagOutside(rs[..|rs| - 1], id);
    }
  }

  lemma {:induction false} AllTagged(rs: seq<Record>, id: TxID)
    requires forall r :: r in rs ==> r.txID == id
    ensures Tagged(rs, id) == rs
  {
    if rs != [] {
      assert rs[|rs| - 1] in rs;
      AllTagged(rs[..|rs| - 1], id);
      assert rs == rs[..|rs| - 1] + [rs[|rs| - 1]];
    }
  }

  lemma TaggedInShape(c: Commit, oldLog: seq<Record>, log: seq<Record>, sent: nat, id: TxID)
    requires WellFormed(c) && Fresh(c, oldLog) && sent <= |c.program|
    requires LogShape(c, oldLog, log, sent) && id != []
    ensures Tagged(log, id) == if id == c.id then c.program[..sent] else Tagged(oldLog, id)
  {
    var mine := c.program[..sent];
    var rest := log[|oldLog| + sent..];
    assert log == (oldLog + mine) + rest;
    TaggedConcat(oldLog + mine, rest, id);
    TaggedConcat(oldLog, mine, id);
    assert forall r :: r in mine ==> r in c.program;
    UntaggedVanish(rest, id);
    if id == c.id {
      NoTagOutside(oldLog, id);
      AllTagged(mine, id);
    } else {
      NoTagOutside(mine, id);
    }
  }

  lemma TxIDsInShape(c: Commit, oldLog: seq<Record>, log: seq<Record>, sent: nat, id: TxID)
    requires WellFormed(c) && sent <= |c.program| && LogShape(c, oldLog, log, sent)
    ensures id in TxIDs(log) <==> id in TxIDs(oldLog) || (id == c.id && sent > 0)
  {
    var tagged := oldLog + c.program[..sent];
    if id in TxIDs(log) {
      var i :| 0 <= i < |log| && log[i].txID == id && id != [];
      assert i < |tagged| && tagged[i] == log[i];
      if i < |oldLog| {
        assert oldLog[i] in oldLog;
      } else {
        assert log[i] in c.program;
      }
    }
    if id in TxIDs(oldLog) {
      var i :| 0 <= i < |oldLog| && oldLog[i].txID == id && id != [];
      assert tagged[i] == log[i] && log[i] in log;
    }
    if sent > 0 {
      assert tagged[|oldLog|] == log[|oldLog|] == c.program[0] && c.program[0] in c.program && log[|oldLog|] in log;
    }
  }

  function CommittedWith(c: Commit, txs: Txs, sent: nat): Txs {
    if sent == |c.program| then txs[c.id := c.ops] else txs
  }

  predicate SameAt(a: Txs, b: Txs, id: TxID) {
    (id in a <==> id in b) && (id in a ==> a[id] == b[id])
  }

  lemma CommittedInShapeAt(c: Commit, oldLog: seq<Record>, log: seq<Record>, sent: nat, id: TxID)
    requires WellFormed(c) && Fresh(c, oldLog) && sent <= |c.program| && LogShape(c, oldLog, log, sent)
    ensures SameAt(Committed(log), CommittedWith(c, Committed(oldLog), sent), id)
  {
    if id != [] {
      TxIDsInShape(c, oldLog, log, sent, id);
      TaggedInShape(c, oldLog, log, sent, id);
      if id == c.id {
        ProgramPrefix(c.program, c.id, c.ops, sent);
        assert c.program[..|c.program|] == c.program;
      }
    }
  }

  /** The crashed log commits what it did before and, once its tagged commit is in, this transaction. */
  lemma CommittedInShape(c: Commit, oldLog: seq<Record>, log: seq<Record>, sent: nat)
    requires WellFormed(c) && Fresh(c, oldLog) && sent <= |c.program| && LogShape(c, oldLog, log, sent)
    ensures Committed(log) == CommittedWith(c, Committed(oldLog), sent)
  {
    var a, b := Committed(log), CommittedWith(c, Committed(oldLog), sent);
    forall id: TxID ensures SameAt(a, b, id) {
      CommittedInShapeAt(c, oldLog, log, sent, id);
    }
    SameEverywhere(a, b);
  }

  lemma SameEverywhere(a: Txs, b: Txs)
    requires forall id: TxID :: SameAt(a, b, id)
    ensures a == b
  {
    assert forall id: TxID :: (id in a <==> id in b) by {
      forall id: TxID ensures id in a <==> id in b {
        assert SameAt(a, b, id);
      }
    }
    assert forall id: TxID :: id in a ==> a[id] == b[id] by {
      forall id: TxID | id in a ensures a[id] == b[id] {
        assert SameAt(a, b, id);
      }
    }
  }

  lemma {:induction false} FlatOk(env: S.Env, txs: Txs, order: seq<TxID>)
    requires forall id :: id in order ==> id in txs
    requires forall t, op :: t in txs && op in txs[t] ==> OpOk(env, op)
    ensures forall op :: op in Flat(txs, order) ==> OpOk(env, op)
  {
    if order != [] {
      assert order[|order| - 1] in order;
      FlatOk(env, txs, order[..|order| - 1]);
    }
  }

  /** Without a crash Commit succeeds exactly when no Put has an empty key; otherwise it stops at
      the first such Put with the operations before it applied. Its log already commits the whole
      transaction, so a later recovery applies the rest. */
  lemma CommitOutcome(env: S.Env, d: Disk, c: Commit, live: Live, clock: U32)
    requires EnvOk(env) && StateHolds(env, d.store, live, clock)
    requires WellFormed(c) && Fresh(c, d.log) && Timed(c.stamps, clock)
    requires forall op :: op in c.ops ==> OpOk(env, op)
    ensures var done, m := After(env, d, c, Finished(c)), Runnable(c.ops);
      && StateHolds(env, done.store, LiveAfter(live, c.ops[..m]), LastOf(c.stamps[..m], clock))
      && (m == |c.ops| <==> forall op :: op in c.ops ==> !(op.PutOp? && op.key == []))
      && Committed(done.log) == Committed(d.log)[c.id := c.ops]
  {
    AfterStore(env, d, c, Finished(c), live, clock);
    AfterLog(env, d, c, Finished(c));
    CommittedInShape(c, d.log, After(env, d, c, Finished(c)).log, |c.program|);
  }
}
