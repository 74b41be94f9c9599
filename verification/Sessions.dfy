/** Whole lives of a transaction object: any run of Put, Delete, Commit and Rollback calls on it,
    with other writers in between, and what the log then makes recovery replay. */
module Sessions {
  import opened Bytes
  import S = Store
  import opened StoreRuns
  import opened Simulation
  import opened StoreSteps
  import opened Wal
  import opened Replay
  import T = Transactions

  /** The queued operations of one transaction object, and the disk. */
  datatype Session = Session(id: TxID, ops: seq<TxOp>, disk: T.Disk)

  datatype Call =
    | Queue(op: TxOp)
    | Commit(script: T.Commit)
    | CommitAmong(script: T.Commit, after: T.Disk)
    | Rollback(note: Record)
    | Elsewhere(store: State, r: Record)

  /** The log has grown by the first n records of a program, in order, and by records of others in
      between, for the log is locked per record. */
  predicate Logged(before: seq<Record>, log: seq<Record>, c: T.Commit, n: nat) {
    n <= |c.program| && before <= log && Tagged(log[|before|..], c.id) == c.program[..n]
  }

  predicate Commits(x: Session, c: T.Commit) {
    T.WellFormed(c) && c.id == x.id && c.ops == x.ops
  }

  /** Commit logs what is queued, alone or with others logging and writing meanwhile; Rollback logs an
      untagged note; others log under other ids. */
  predicate Possible(x: Session, call: Call) {
    match call
    case Queue(_) => true
    case Commit(c) => Commits(x, c)
    case CommitAmong(c, after) => Commits(x, c) && Logged(x.disk.log, after.log, c, |c.program|)
    case Rollback(note) => note.txID == []
    case Elsewhere(_, r) => r.txID != x.id
  }

  /** Commit empties the queue only if it gets through all operations. */
  function QueueAfter(c: T.Commit): seq<TxOp> {
    if T.Runnable(c.ops) == |c.ops| then [] else c.ops
  }

  function Step(env: S.Env, x: Session, call: Call): Session
    requires Possible(x, call)
  {
    match call
    case Queue(op) => x.(ops := x.ops + [op])
    case Commit(c) => x.(ops := QueueAfter(c), disk := T.After(env, x.disk, c, T.Finished(c)))
    case CommitAmong(c, after) => x.(ops := QueueAfter(c), disk := after)
    case Rollback(note) => x.(ops := [], disk := x.disk.(log := x.disk.log + [note]))
    case Elsewhere(store, r) => x.(disk := T.Disk(store, x.disk.log + [r]))
  }

  /** The session after the calls, if each was possible. */
  function Run(env: S.Env, x: Session, calls: seq<Call>): Option<Session> {
    if calls == [] then Some(x)
    else
      match Run(env, x, calls[..|calls| - 1])
      case None => None
      case Some(y) =>
        var last := calls[|calls| - 1];
        if Possible(y, last) then Some(Step(env, y, last)) else None
  }

  /** What the Commit calls, failed ones included, put in the log: operations queued at each. */
  function LoggedOps(calls: seq<Call>): seq<TxOp> {
    if calls == [] then []
    else
      var last := calls[|calls| - 1];
      LoggedOps(calls[..|calls| - 1]) + if IsCommit(last) then last.script.ops else []
  }

  predicate IsCommit(call: Call) {
    call.Commit? || call.CommitAmong?
  }

  predicate HasCommit(calls: seq<Call>) {
    exists call :: call in calls && IsCommit(call)
  }

  /** A group made of whole programs; `any` tells whether there is at least one. */
  ghost predicate Programs(group: seq<Record>, ops: seq<TxOp>, any: bool) {
    && Ops(group) == ops
    && (if any then Complete(group) else group == [])
  }

  lemma {:induction false} OpsConcat(a: seq<Record>, b: seq<Record>)
    ensures Ops(a + b) == Ops(a) + Ops(b)
  {
    if b == [] {
      assert a + b == a;
    } else {
      assert (a + b)[..|a + b| - 1] == a + b[..|b| - 1];
      OpsConcat(a, b[..|b| - 1]);
    }
  }

  lemma HasConcat(a: seq<Record>, b: seq<Record>, typ: Byte)
    ensures Has(a + b, typ) <==> Has(a, typ) || Has(b, typ)
  {
    var ab := a + b;
    if Has(a, typ) {
      var i :| 0 <= i < |a| && a[i].typ == typ;
      assert ab[i].typ == typ;
    }
    if Has(b, typ) {
      var i :| 0 <= i < |b| && b[i].typ == typ;
      assert ab[|a| + i].typ == typ;
    }
  }

  lemma CompleteConcat(a: seq<Record>, b: seq<Record>)
    requires Complete(a) && !Has(b, WAL_ROLLBACK)
    ensures Complete(a + b)
  {
    HasConcat(a, b, WAL_BEGIN);
    HasConcat(a, b, WAL_COMMIT);
    HasConcat(a, b, WAL_ROLLBACK);
  }

  /** The first `n` records of a program: no rollback, and the operations among them. */
  lemma ProgramCut(c: T.Commit, n: nat)
    requires T.WellFormed(c) && n <= |c.program|
    ensures !Has(c.program[..n], WAL_ROLLBACK)
    ensures Complete(c.program[..n]) <==> n == |c.program|
    ensures Ops(c.program[..n]) == CutOps(c, n)
  {
    ProgramPrefix(c.program, c.id, c.ops, n);
    if n == |c.program| {
      assert c.program[..n] == c.program && c.ops[..|c.ops|] == c.ops;
    } else if n > 0 {
      OpsOfProgram(c.program, c.ops, n - 1);
    }
    forall i | 0 <= i < |c.program| ensures c.program[i].typ != WAL_ROLLBACK {
      if 0 < i < |c.program| - 1 {
        assert Logs(c.program[i], c.ops[i - 1]);
      }
    }
  }

  /** The operations among the first `n` records of a program. */
  function CutOps(c: T.Commit, n: nat): seq<TxOp>
    requires n <= |c.ops| + 2
  {
    if n == 0 then [] else if n - 1 <= |c.ops| then c.ops[..n - 1] else c.ops
  }

  // ---- the transaction's group in the log ----

  /** A Commit stopped anywhere has logged the first records of its program, and nothing else tagged. */
  lemma CommitLogs(env: S.Env, d: T.Disk, c: T.Commit, at: T.Progress)
    requires T.WellFormed(c) && T.Reached(c, at)
    ensures Logged(d.log, T.After(env, d, c, at).log, c, at.sent)
  {
    hide T.After;
    T.AfterLog(env, d, c, at);
    var log, mine := T.After(env, d, c, at).log, c.program[..at.sent];
    var rest := log[|d.log + mine|..];
    assert log[|d.log|..] == mine + rest;
    TaggedConcat(mine, rest, c.id);
    UntaggedVanish(rest, c.id);
    assert forall r :: r in mine ==> r in c.program;
    T.AllTagged(mine, c.id);
  }

  lemma LoggedTags(before: seq<Record>, log: seq<Record>, c: T.Commit, n: nat)
    requires Logged(before, log, c, n)
    ensures Tagged(log, c.id) == Tagged(before, c.id) + c.program[..n]
  {
    assert log == before + log[|before|..];
    TaggedConcat(before, log[|before|..], c.id);
  }

  lemma {:induction false} RunGroup(env: S.Env, x: Session, calls: seq<Call>)
    requires x.id != [] && Tagged(x.disk.log, x.id) == [] && Run(env, x, calls).Some?
    ensures var y := Run(env, x, calls).value;
      y.id == x.id && Programs(Tagged(y.disk.log, x.id), LoggedOps(calls), HasCommit(calls))
  {
    if calls != [] {
      var init, last := calls[..|calls| - 1], calls[|calls| - 1];
      RunGroup(env, x, init);
      assert calls == init + [last];
      StepGroup(env, Run(env, x, init).value, last, LoggedOps(init), HasCommit(init));
    }
  }

  lemma StepGroup(env: S.Env, y: Session, call: Call, ops: seq<TxOp>, any: bool)
    requires y.id != [] && Possible(y, call) && Programs(Tagged(y.disk.log, y.id), ops, any)
    ensures var z := Step(env, y, call);
      && z.id == y.id
      && var ops' := ops + if IsCommit(call) then call.script.ops else [];
      Programs(Tagged(z.disk.log, y.id), ops', any || IsCommit(call))
  {
    hide Complete, Ops, T.After;
    match call
    case Queue(_) => assert ops + [] == ops;
    case Commit(c) =>
      CommitLogs(env, y.disk, c, T.Finished(c));
      WholeProgram(y, T.After(env, y.disk, c, T.Finished(c)).log, c, ops, any);
    case CommitAmong(c, after) => WholeProgram(y, after.log, c, ops, any);
    case Rollback(note) =>
      TaggedAppend(y.disk.log, note, y.id);
      assert ops + [] == ops;
    case Elsewhere(_, r) =>
      TaggedAppend(y.disk.log, r, y.id);
      assert ops + [] == ops;
  }

  lemma WholeProgram(y: Session, log: seq<Record>, c: T.Commit, ops: seq<TxOp>, any: bool)
    requires Commits(y, c) && Logged(y.disk.log, log, c, |c.program|) && Programs(Tagged(y.disk.log, y.id), ops, any)
    ensures Programs(Tagged(log, y.id), ops + c.ops, true)
  {
    hide Complete, Ops;
    LoggedTags(y.disk.log, log, c, |c.program|);
    CutGroup(Tagged(y.disk.log, y.id), ops, any, c, |c.program|);
  }

  lemma {:induction false} TaggedAreLogged(rs: seq<Record>, id: TxID)
    requires id != []
    ensures id in TxIDs(rs) <==> Tagged(rs, id) != []
  {
    if rs != [] {
      var init, last := rs[..|rs| - 1], rs[|rs| - 1];
      assert rs == init + [last];
      TaggedAreLogged(init, id);
      assert TxIDs(rs) == TxIDs(init) + if last.txID == [] then {} else {last.txID};
    }
  }

  lemma GroupDecides(rs: seq<Record>, id: TxID)
    requires id != []
    ensures id in Committed(rs) <==> Complete(Tagged(rs, id))
    ensures id in Committed(rs) ==> Committed(rs)[id] == Ops(Tagged(rs, id))
  {
    TaggedAreLogged(rs, id);
  }

  // ---- what recovery replays ----

  /** After any run of calls on a fresh transaction object, recovery replays the transaction if and
      only if Commit was called at all, whether it succeeded and whatever was called afterwards; it
      replays the operations that were queued at each Commit call, one batch after the other. */
  lemma RunReplayed(env: S.Env, x: Session, calls: seq<Call>)
    requires x.id != [] && x.id !in TxIDs(x.disk.log) && Run(env, x, calls).Some?
    ensures var txs := Committed(Run(env, x, calls).value.disk.log);
      && (x.id in txs <==> HasCommit(calls))
      && (x.id in txs ==> txs[x.id] == LoggedOps(calls))
  {
    TaggedAreLogged(x.disk.log, x.id);
    RunGroup(env, x, calls);
    GroupDecides(Run(env, x, calls).value.disk.log, x.id);
  }

  /** In particular a transaction that was rolled back is replayed if and only if Commit had been
      called before: Rollback writes nothing recovery would heed. */
  lemma RolledBackReplayedIff(env: S.Env, x: Session, calls: seq<Call>, note: Record)
    requires x.id != [] && x.id !in TxIDs(x.disk.log) && Run(env, x, calls + [Rollback(note)]).Some?
    ensures var y := Run(env, x, calls + [Rollback(note)]).value;
      y.ops == [] && (x.id in Committed(y.disk.log) <==> HasCommit(calls))
  {
    var all := calls + [Rollback(note)];
    assert all[..|all| - 1] == calls;
    RunReplayed(env, x, all);
    if HasCommit(all) {
      var call :| call in all && IsCommit(call);
      assert call in calls;
    }
  }

  /** A crash inside a Commit, with others logging meanwhile or not: recovery replays the batches of
      earlier Commit calls and, if there were any, whatever part of this one's operations had been
      logged. */
  lemma CrashedCommitReplayed(env: S.Env, x: Session, calls: seq<Call>, c: T.Commit, log: seq<Record>, n: nat)
    requires x.id != [] && x.id !in TxIDs(x.disk.log) && Run(env, x, calls).Some?
    requires Commits(Run(env, x, calls).value, c) && Logged(Run(env, x, calls).value.disk.log, log, c, n)
    ensures x.id in Committed(log) <==> HasCommit(calls) || n == |c.program|
    ensures x.id in Committed(log) ==> Committed(log)[x.id] == LoggedOps(calls) + CutOps(c, n)
  {
    hide Complete, Ops, Committed, Programs, CutOps;
    var y := Run(env, x, calls).value;
    TaggedAreLogged(x.disk.log, x.id);
    RunGroup(env, x, calls);
    LoggedTags(y.disk.log, log, c, n);
    CutGroup(Tagged(y.disk.log, x.id), LoggedOps(calls), HasCommit(calls), c, n);
    GroupDecides(log, x.id);
  }

  /** What is replayed is what earlier Commit calls had logged, or that and all of this one. */
  predicate WholeBatches(log: seq<Record>, earlier: seq<TxOp>, c: T.Commit) {
    c.id in Committed(log) ==> Committed(log)[c.id] == earlier || Committed(log)[c.id] == earlier + c.ops
  }

  /** Wherever a crash stops the commit machine. */
  ghost predicate AllOrNothing(env: S.Env, d: T.Disk, earlier: seq<TxOp>, c: T.Commit)
    requires T.WellFormed(c)
  {
    forall at :: T.Reached(c, at) ==> WholeBatches(T.After(env, d, c, at).log, earlier, c)
  }

  /** The same with others logging meanwhile. */
  ghost predicate AllOrNothingAmong(before: seq<Record>, earlier: seq<TxOp>, c: T.Commit) {
    forall log, n: nat :: Logged(before, log, c, n) ==> WholeBatches(log, earlier, c)
  }

  /** A Commit is all or nothing in what recovery issues, wherever it is stopped and whoever else is
      logging, if and only if it is the first one of its object or has at most one operation. */
  lemma AllOrNothingIff(env: S.Env, x: Session, calls: seq<Call>, c: T.Commit)
    requires x.id != [] && x.id !in TxIDs(x.disk.log) && Run(env, x, calls).Some?
    requires Commits(Run(env, x, calls).value, c)
    ensures var d := Run(env, x, calls).value.disk;
      && (AllOrNothing(env, d, LoggedOps(calls), c) <==> !HasCommit(calls) || |c.ops| <= 1)
      && (AllOrNothingAmong(d.log, LoggedOps(calls), c) <==> !HasCommit(calls) || |c.ops| <= 1)
  {
    hide Run, HasCommit, LoggedOps, Logged, Committed, T.After;
    var y, earlier := Run(env, x, calls).value, LoggedOps(calls);
    RunKeepsId(env, x, calls);
    if !HasCommit(calls) || |c.ops| <= 1 {
      forall log, n: nat | Logged(y.disk.log, log, c, n) ensures WholeBatches(log, earlier, c) {
        CrashedCommitReplayed(env, x, calls, c, log, n);
        if HasCommit(calls) || n == |c.program| {
          assert n <= |c.program| by { LoggedBound(y.disk.log, log, c, n); }
          SmallCut(c, n, earlier, HasCommit(calls));
        }
      }
      forall at | T.Reached(c, at) ensures WholeBatches(T.After(env, y.disk, c, at).log, earlier, c) {
        CommitLogs(env, y.disk, c, at);
      }
    } else {
      var at := T.Progress(2, 0, 0, false);
      var log := T.After(env, y.disk, c, at).log;
      CommitLogs(env, y.disk, c, at);
      CrashedCommitReplayed(env, x, calls, c, log, 2);
      assert |CutOps(c, 2)| == 1;
      assert !WholeBatches(log, earlier, c) && Logged(y.disk.log, log, c, 2) && T.Reached(c, at);
    }
  }

  lemma RunKeepsId(env: S.Env, x: Session, calls: seq<Call>)
    requires x.id != [] && x.id !in TxIDs(x.disk.log) && Run(env, x, calls).Some?
    ensures Run(env, x, calls).value.id == x.id
  {
    TaggedAreLogged(x.disk.log, x.id);
    RunGroup(env, x, calls);
  }

  lemma LoggedBound(before: seq<Record>, log: seq<Record>, c: T.Commit, n: nat)
    requires Logged(before, log, c, n)
    ensures n <= |c.program|
  {
  }

  lemma SmallCut(c: T.Commit, n: nat, earlier: seq<TxOp>, any: bool)
    requires T.WellFormed(c) && n <= |c.program| && (any ==> |c.ops| <= 1) && (any || n == |c.program|)
    ensures earlier + CutOps(c, n) == earlier || earlier + CutOps(c, n) == earlier + c.ops
  {
    assert earlier + [] == earlier;
  }

  lemma CutGroup(group: seq<Record>, ops: seq<TxOp>, any: bool, c: T.Commit, n: nat)
    requires T.WellFormed(c) && n <= |c.program| && Programs(group, ops, any)
    ensures Complete(group + c.program[..n]) <==> any || n == |c.program|
    ensures Ops(group + c.program[..n]) == ops + CutOps(c, n)
  {
    hide Complete;
    var part := c.program[..n];
    ProgramCut(c, n);
    OpsConcat(group, part);
    if any {
      CompleteConcat(group, part);
    } else {
      assert group + part == part;
    }
  }

  // ---- the lives that end in a surprise ----

  lemma RunNext(env: S.Env, x: Session, calls: seq<Call>, call: Call)
    ensures Run(env, x, calls + [call]) ==
      match Run(env, x, calls) case None => None
      case Some(y) => if Possible(y, call) then Some(Step(env, y, call)) else None
  {
    assert (calls + [call])[..|calls|] == calls;
  }

  lemma RunFirst(env: S.Env, x: Session, call: Call)
    ensures Run(env, x, [call]) == if Possible(x, call) then Some(Step(env, x, call)) else None
  {
    assert [call][..0] == [];
  }

  /** Queue a Put with an empty key and a Put of k, commit, roll back: Commit fails with nothing
      applied and Rollback succeeds, yet the next start replays both, and k is there. */
  lemma RolledBackIsReplayed(env: S.Env, x: Session, c: T.Commit, note: Record, k: Bytes, v: Bytes, w: Bytes)
    requires x.ops == [] && x.id != [] && x.id !in TxIDs(x.disk.log) && k != []
    requires T.WellFormed(c) && c.id == x.id && c.ops == [PutOp([], w), PutOp(k, v)] && note.txID == []
    ensures var calls := [Queue(PutOp([], w)), Queue(PutOp(k, v)), Commit(c), Rollback(note)];
      && Run(env, x, calls).Some?
      && var y := Run(env, x, calls).value;
      && y.ops == [] && y.disk.store == x.disk.store
      && x.id in Committed(y.disk.log) && Committed(y.disk.log)[x.id] == c.ops
    ensures forall live: Live :: T.LookLive(T.LiveAfter(live, c.ops), k) == Some(Meaning(v, 0, 0))
  {
    hide T.After, Committed, Run, HasCommit, LoggedOps;
    var a, b := Queue(PutOp([], w)), Queue(PutOp(k, v));
    var calls := [a, b, Commit(c), Rollback(note)];
    RunFirst(env, x, a);
    RunNext(env, x, [a], b);
    RunNext(env, x, [a, b], Commit(c));
    RunNext(env, x, [a, b, Commit(c)], Rollback(note));
    assert [a] + [b] == [a, b] && [a, b] + [Commit(c)] == [a, b, Commit(c)]
        && [a, b, Commit(c)] + [Rollback(note)] == calls;
    T.LoggingPhase(env, x.disk, c, |c.program|);
    RunReplayed(env, x, calls);
    LoggedOnce(a, b, c, note);
    forall live: Live ensures T.LookLive(T.LiveAfter(live, c.ops), k) == Some(Meaning(v, 0, 0)) {
      T.LiveAfterLook(live, c.ops, k);
    }
  }

  lemma LoggedOnce(a: Call, b: Call, c: T.Commit, note: Record)
    requires a.Queue? && b.Queue?
    ensures HasCommit([a, b, Commit(c), Rollback(note)]) && LoggedOps([a, b, Commit(c), Rollback(note)]) == c.ops
  {
    assert Commit(c) in [a, b, Commit(c), Rollback(note)];
    assert [a][..0] == [] && [a, b][..1] == [a] && [a, b, Commit(c)][..2] == [a, b];
    assert [a, b, Commit(c), Rollback(note)][..3] == [a, b, Commit(c)];
    assert LoggedOps([a, b]) == LoggedOps([a]) == LoggedOps([a][..0]) == [];
    assert LoggedOps([a, b, Commit(c)]) == c.ops;
  }

  /** A Commit that failed at an empty key is called again, and a crash cuts the second call behind
      its first operation: k, set to v1 and then to v2 by the transaction, comes back as v1, which is
      neither what it was before the second call nor what the transaction leaves. */
  lemma RetriedCommitTorn(env: S.Env, x: Session, c: T.Commit, retry: T.Commit, k: Bytes, v1: Bytes, v2: Bytes,
                          w: Bytes)
    requires x.id != [] && x.id !in TxIDs(x.disk.log) && k != [] && v1 != v2
    requires T.WellFormed(c) && T.WellFormed(retry) && c.id == retry.id == x.id
    requires c.ops == retry.ops == x.ops == [PutOp(k, v1), PutOp(k, v2), PutOp([], w)]
    ensures var at := T.Progress(2, 0, 0, false);
      && Run(env, x, [Commit(c)]).Some?
      && Commits(Run(env, x, [Commit(c)]).value, retry) && T.Reached(retry, at)
      && var txs := Committed(T.After(env, Run(env, x, [Commit(c)]).value.disk, retry, at).log);
      && x.id in txs
      && forall live: Live ::
           && T.LookLive(T.LiveAfter(live, txs[x.id]), k) == Some(Meaning(v1, 0, 0))
           && T.LookLive(T.LiveAfter(live, c.ops), k) == Some(Meaning(v2, 0, 0))
           && T.LookLive(T.LiveAfter(live, c.ops + retry.ops), k) == Some(Meaning(v2, 0, 0))
  {
    hide Run, Commits, Logged, LoggedOps, HasCommit, CutOps, Committed, TxIDs, T.After, T.LiveAfter, T.LookLive,
        T.WellFormed, T.Reached;
    var at := T.Progress(2, 0, 0, false);
    FailedCommit(env, x, c, retry, k, v1, v2, w);
    CommitLogs(env, Run(env, x, [Commit(c)]).value.disk, retry, at);
    CrashedCommitReplayed(env, x, [Commit(c)], retry, T.After(env, Run(env, x, [Commit(c)]).value.disk, retry, at).log,
        2);
    forall live: Live
      ensures T.LookLive(T.LiveAfter(live, c.ops + [PutOp(k, v1)]), k) == Some(Meaning(v1, 0, 0))
      ensures T.LookLive(T.LiveAfter(live, c.ops), k) == Some(Meaning(v2, 0, 0))
      ensures T.LookLive(T.LiveAfter(live, c.ops + retry.ops), k) == Some(Meaning(v2, 0, 0))
    {
      RetryEffect(live, c.ops, k, v1, v2, w);
    }
  }

  /** The first call fails, keeps its queue and has logged it. */
  lemma FailedCommit(env: S.Env, x: Session, c: T.Commit, retry: T.Commit, k: Bytes, v1: Bytes, v2: Bytes, w: Bytes)
    requires T.WellFormed(c) && T.WellFormed(retry) && c.id == retry.id == x.id
    requires c.ops == retry.ops == x.ops == [PutOp(k, v1), PutOp(k, v2), PutOp([], w)]
    ensures Run(env, x, [Commit(c)]).Some? && Commits(Run(env, x, [Commit(c)]).value, retry)
    ensures T.Reached(retry, T.Progress(2, 0, 0, false))
    ensures HasCommit([Commit(c)]) && LoggedOps([Commit(c)]) == c.ops && CutOps(retry, 2) == [PutOp(k, v1)]
  {
    hide T.After;
    assert [Commit(c)][..0] == [] && Commit(c) in [Commit(c)];
    assert T.Runnable(c.ops) != |c.ops| by {
      assert c.ops[2] in c.ops;
    }
  }

  lemma RetryEffect(live: Live, ops: seq<TxOp>, k: Bytes, v1: Bytes, v2: Bytes, w: Bytes)
    requires k != [] && ops == [PutOp(k, v1), PutOp(k, v2), PutOp([], w)]
    ensures T.LookLive(T.LiveAfter(live, ops + [PutOp(k, v1)]), k) == Some(Meaning(v1, 0, 0))
    ensures T.LookLive(T.LiveAfter(live, ops), k) == Some(Meaning(v2, 0, 0))
    ensures T.LookLive(T.LiveAfter(live, ops + ops), k) == Some(Meaning(v2, 0, 0))
  {
    T.LiveAfterLook(live, ops + [PutOp(k, v1)], k);
    T.LiveAfterLook(live, ops, k);
    T.LiveAfterLook(live, ops + ops, k);
    T.NetConcat(ops, [PutOp(k, v1)], k);
    T.NetConcat(ops, ops, k);
    LastPutWins(k, v1, v2, w);
  }

  lemma LastPutWins(k: Bytes, v1: Bytes, v2: Bytes, w: Bytes)
    requires k != []
    ensures Net([PutOp(k, v1), PutOp(k, v2), PutOp([], w)], k) == Puts(v2)
    ensures Net([PutOp(k, v1)], k) == Puts(v1)
  {
    var ops := [PutOp(k, v1), PutOp(k, v2), PutOp([], w)];
    assert ops[..2] == [PutOp(k, v1), PutOp(k, v2)];
    assert Net(ops, k) == Net(ops[..2], k);
  }
}
