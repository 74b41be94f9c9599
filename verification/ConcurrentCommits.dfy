/** Several commits at once: their steps, and plain writes of other clients, interleave in any way, for
    the log is locked per record and the store per write; a crash stops them anywhere. */
module ConcurrentCommits {
  import opened Bytes
  import opened Codec
  import opened Entry
  import S = Store
  import opened Simulation
  import opened StoreSteps
  import opened StoreRuns
  import opened StoreTheorems
  import opened Wal
  import opened Replay
  import opened Transactions
  import opened Crashes
  import Sessions

  /** Commits by transaction id; the clock readings come with the turns instead. */
  type Commits = map<TxID, Commit>

  ghost predicate Scripted(commits: Commits) {
    forall id :: id in commits ==> WellFormed(commits[id]) && commits[id].id == id
  }

  /** One step of a commit, or a plain Put or Delete, which logs an untagged record if it is accepted. */
  datatype Turn = Advance(id: TxID, ts: U32) | Plain(op: TxOp, ts: U32, note: Record)

  /** The disk, how far each commit is, and the operations written so far, in order. */
  datatype System = System(disk: Disk, at: map<TxID, Progress>, done: seq<TxOp>)

  function At(x: System, id: TxID): Progress {
    if id in x.at then x.at[id] else Progress(0, 0, 0, false)
  }

  /** What a commit does next, if it is not finished. */
  function Next(c: Commit, at: Progress, ts: U32): (n: Option<(Progress, MicroStep)>)
    requires WellFormed(c) && Reached(c, at)
    ensures n.Some? ==> Reached(c, n.value.0)
  {
    if at.sent < |c.program| then Some((at.(sent := at.sent + 1), Log(c.program[at.sent])))
    else if at.noted < at.written then Some((at.(noted := at.noted + 1), Note(c.ops[at.noted], c.notes[at.noted])))
    else if at.written < Runnable(c.ops) then Some((at.(written := at.written + 1), Write(c.ops[at.written], ts)))
    else if at.written == |c.ops| && !at.closed then Some((at.(closed := true), Log(c.finalNote)))
    else None
  }

  /** The next step is the one that `Transactions.LastStep` takes back, but for the clock reading. */
  lemma NextIsLast(c: Commit, at: Progress, ts: U32)
    requires WellFormed(c) && Reached(c, at) && Next(c, at, ts).Some?
    ensures var (at', m) := Next(c, at, ts).value;
      && at'.sent > 0 && LastStep(c, at').0 == at
      && LastStep(c, at').1 == if m.Write? then Write(m.op, c.stamps[at.written]) else m
  {
  }

  ghost predicate Going(commits: Commits, x: System) {
    Scripted(commits) && forall id :: id in commits ==> Reached(commits[id], At(x, id))
  }

  ghost function Step(env: S.Env, commits: Commits, x: System, turn: Turn): (y: System)
    requires Going(commits, x)
    ensures Going(commits, y)
  {
    match turn
    case Plain(op, ts, note) =>
      System(Exec(env, Exec(env, x.disk, Write(op, ts)), Note(op, note)), x.at, x.done + [op])
    case Advance(id, ts) =>
      if id !in commits then x
      else
        match Next(commits[id], At(x, id), ts)
        case None => x
        case Some((at, m)) => System(Exec(env, x.disk, m), x.at[id := at], x.done + if m.Write? then [m.op] else [])
  }

  ghost function Run(env: S.Env, commits: Commits, d: Disk, turns: seq<Turn>): (x: System)
    requires Scripted(commits)
    ensures Going(commits, x)
  {
    if turns == [] then System(d, map[], [])
    else Step(env, commits, Run(env, commits, d, turns[..|turns| - 1]), turns[|turns| - 1])
  }

  /** Operations fit the store, plain records are untagged, and the clock does not go backwards. */
  ghost predicate Fair(env: S.Env, commits: Commits, turns: seq<Turn>, clock: U32) {
    && (forall id, op :: id in commits && op in commits[id].ops ==> OpOk(env, op))
    && (forall t :: t in turns && t.Plain? ==> OpOk(env, t.op) && t.note.txID == [])
    && (forall t :: t in turns ==> clock <= t.ts)
    && (forall i, j :: 0 <= i < j < |turns| ==> turns[i].ts <= turns[j].ts)
  }

  function ClockOf(turns: seq<Turn>, clock: U32): U32 {
    if turns == [] then clock else turns[|turns| - 1].ts
  }

  lemma FairPrefix(env: S.Env, commits: Commits, turns: seq<Turn>, clock: U32)
    requires Fair(env, commits, turns, clock) && turns != []
    ensures Fair(env, commits, turns[..|turns| - 1], clock)
    ensures ClockOf(turns[..|turns| - 1], clock) <= turns[|turns| - 1].ts
    ensures turns[|turns| - 1].Plain? ==> OpOk(env, turns[|turns| - 1].op) && turns[|turns| - 1].note.txID == []
  {
    assert turns[|turns| - 1] in turns;
    assert forall t :: t in turns[..|turns| - 1] ==> t in turns;
  }

  // ---- the store ----

  lemma DoneNext(live: Live, done: seq<TxOp>, op: TxOp)
    ensures LiveAfter(live, done + [op]) == LiveOp(LiveAfter(live, done), op)
  {
    assert (done + [op])[..|done|] == done;
  }

  lemma StepStore(env: S.Env, commits: Commits, x: System, turn: Turn, live: Live, clock: U32)
    requires EnvOk(env) && Going(commits, x) && StateHolds(env, x.disk.store, LiveAfter(live, x.done), clock)
    requires forall id, op :: id in commits && op in commits[id].ops ==> OpOk(env, op)
    requires clock <= turn.ts && (turn.Plain? ==> OpOk(env, turn.op))
    ensures var y := Step(env, commits, x, turn); StateHolds(env, y.disk.store, LiveAfter(live, y.done), turn.ts)
  {
    hide Holds, ApplyTx, LiveAfter, WellFormed, IsProgram;
    var s := x.disk.store;
    ClockHolds(env, s.files, s.active, s.index, LiveAfter(live, x.done), clock, turn.ts);
    match turn
    case Plain(op, ts, note) =>
      DoneNext(live, x.done, op);
      ApplyTxHolds(env, s, LiveAfter(live, x.done), clock, op, ts);
    case Advance(id, ts) =>
      if id in commits {
        var n := Next(commits[id], At(x, id), ts);
        if n.Some? && n.value.1.Write? {
          var op := n.value.1.op;
          assert op in commits[id].ops;
          DoneNext(live, x.done, op);
          ApplyTxHolds(env, s, LiveAfter(live, x.done), clock, op, ts);
        } else {
          assert x.done + [] == x.done;
        }
      }
  }

  lemma {:induction false} RunStore(env: S.Env, commits: Commits, d: Disk, turns: seq<Turn>, live: Live, clock: U32)
    requires EnvOk(env) && Scripted(commits) && Fair(env, commits, turns, clock)
    requires StateHolds(env, d.store, live, clock)
    ensures var x := Run(env, commits, d, turns);
      StateHolds(env, x.disk.store, LiveAfter(live, x.done), ClockOf(turns, clock))
  {
    hide StateHolds, Step, Scripted, Going;
    if turns != [] {
      FairPrefix(env, commits, turns, clock);
      var init := turns[..|turns| - 1];
      RunStore(env, commits, d, init, live, clock);
      StepStore(env, commits, Run(env, commits, d, init), turns[|turns| - 1], live, ClockOf(init, clock));
    }
  }

  // ---- the log ----

  /** A step logs the next record of the program, or an untagged one, or nothing. */
  lemma NextLogs(env: S.Env, d: Disk, c: Commit, at: Progress, ts: U32)
    requires WellFormed(c) && Reached(c, at) && Next(c, at, ts).Some?
    ensures var (at', m) := Next(c, at, ts).value;
      var log := Exec(env, d, m).log;
      if at.sent < |c.program| then
        log == d.log + [c.program[at.sent]] && at'.sent == at.sent + 1 && c.program[at.sent].txID == c.id
      else
        at'.sent == at.sent && (log == d.log || exists r: Record :: r.txID == [] && log == d.log + [r])
  {
    hide ApplyTx;
    var m := Next(c, at, ts).value.1;
    if at.sent < |c.program| {
      assert c.program[at.sent] in c.program;
    } else if !m.Write? {
      assert m.r == c.finalNote || m.r in c.notes;
    }
  }

  lemma AdvanceLog(env: S.Env, d: Disk, c: Commit, at: Progress, ts: U32, base: seq<Record>, id: TxID)
    requires WellFormed(c) && Reached(c, at) && Next(c, at, ts).Some? && id != []
    requires id == c.id ==> Tagged(d.log, id) == base + c.program[..at.sent]
    ensures var (at', m) := Next(c, at, ts).value;
      Tagged(Exec(env, d, m).log, id) == if id == c.id then base + c.program[..at'.sent] else Tagged(d.log, id)
  {
    hide Exec, Next, IsProgram, Tagged;
    NextLogs(env, d, c, at, ts);
    var log := Exec(env, d, Next(c, at, ts).value.1).log;
    if at.sent < |c.program| {
      TaggedAppend(d.log, c.program[at.sent], id);
      assert c.program[..at.sent + 1] == c.program[..at.sent] + [c.program[at.sent]];
    } else if log != d.log {
      var r: Record :| r.txID == [] && log == d.log + [r];
      TaggedAppend(d.log, r, id);
    }
  }

  lemma StepLog(env: S.Env, commits: Commits, x: System, turn: Turn, base: seq<Record>, id: TxID)
    requires Going(commits, x) && id != [] && (turn.Plain? ==> turn.note.txID == [])
    requires Tagged(x.disk.log, id) == base + if id in commits then commits[id].program[..At(x, id).sent] else []
    ensures var y := Step(env, commits, x, turn);
      Tagged(y.disk.log, id) == base + if id in commits then commits[id].program[..At(y, id).sent] else []
  {
    hide ApplyTx, Tagged, Next, IsProgram;
    match turn
    case Plain(op, ts, note) => TaggedAppend(x.disk.log, note, id);
    case Advance(u, ts) =>
      if u in commits && Next(commits[u], At(x, u), ts).Some? {
        AdvanceLog(env, x.disk, commits[u], At(x, u), ts, base, id);
      }
  }

  lemma {:induction false} RunLog(env: S.Env, commits: Commits, d: Disk, turns: seq<Turn>, id: TxID)
    requires Scripted(commits) && id != [] && forall t :: t in turns && t.Plain? ==> t.note.txID == []
    ensures var x := Run(env, commits, d, turns);
      Tagged(x.disk.log, id) == Tagged(d.log, id) + if id in commits then commits[id].program[..At(x, id).sent] else []
  {
    hide Step, Scripted, Going, Tagged;
    if turns == [] {
      assert Tagged(d.log, id) + [] == Tagged(d.log, id);
    } else {
      var init, last := turns[..|turns| - 1], turns[|turns| - 1];
      assert last in turns && forall t :: t in init ==> t in turns;
      RunLog(env, commits, d, init, id);
      StepLog(env, commits, Run(env, commits, d, init), last, Tagged(d.log, id), id);
    }
  }

  ghost predicate AllReadable(j: Json, commits: Commits, d: Disk, turns: seq<Turn>) {
    && LawfulJson(j)
    && (forall r :: r in d.log ==> Writable(j, r))
    && (forall id, r :: id in commits && r in commits[id].program ==> Writable(j, r))
    && (forall id, r :: id in commits && r in commits[id].notes ==> Writable(j, r))
    && (forall id :: id in commits ==> Writable(j, commits[id].finalNote))
    && (forall t :: t in turns && t.Plain? ==> Writable(j, t.note))
  }

  lemma StepReadable(env: S.Env, j: Json, commits: Commits, d: Disk, turns: seq<Turn>, x: System, turn: Turn)
    requires AllReadable(j, commits, d, turns) && Going(commits, x) && turn in turns
    requires forall r :: r in x.disk.log ==> Writable(j, r)
    ensures forall r :: r in Step(env, commits, x, turn).disk.log ==> Writable(j, r)
  {
    hide ApplyTx, Writable, IsProgram;
  }

  lemma {:induction false} RunReadable(env: S.Env, j: Json, commits: Commits, d: Disk, all: seq<Turn>, turns: seq<Turn>)
    requires Scripted(commits) && AllReadable(j, commits, d, all) && forall t :: t in turns ==> t in all
    ensures forall r :: r in Run(env, commits, d, turns).disk.log ==> Writable(j, r)
  {
    hide Step, Scripted, Going, Writable;
    if turns != [] {
      var init, last := turns[..|turns| - 1], turns[|turns| - 1];
      assert last in turns && forall t :: t in init ==> t in turns;
      RunReadable(env, j, commits, d, all, init);
      StepReadable(env, j, commits, d, all, Run(env, commits, d, init), last);
    }
  }

  // ---- one commit's keys ----

  predicate Names(ops: seq<TxOp>, k: Bytes) {
    exists op :: op in ops && op.key == k
  }

  /** Of all that runs, only this commit names the key. */
  ghost predicate Owns(commits: Commits, turns: seq<Turn>, id: TxID, k: Bytes) {
    && id in commits
    && (forall u :: u in commits && u != id ==> !Names(commits[u].ops, k))
    && (forall t :: t in turns && t.Plain? ==> t.op.key != k)
  }

  lemma NetNext(done: seq<TxOp>, ops: seq<TxOp>, op: TxOp, k: Bytes)
    ensures op.key != k ==> Net(done + [op], k) == Net(done, k)
    ensures Net(done, k) == Net(ops, k) ==> Net(done + [op], k) == Net(ops + [op], k)
  {
    assert (done + [op])[..|done|] == done && (ops + [op])[..|ops|] == ops;
  }

  lemma NamedIn(ops: seq<TxOp>, op: TxOp)
    requires op in ops
    ensures Names(ops, op.key)
  {
  }

  lemma NextWrites(c: Commit, at: Progress, ts: U32)
    requires WellFormed(c) && Reached(c, at) && Next(c, at, ts).Some?
    ensures var (at', m) := Next(c, at, ts).value;
      if m.Write? then
        && at'.written == at.written + 1 && at.written < |c.ops| && m.op == c.ops[at.written] && m.op in c.ops
        && c.ops[..at'.written] == c.ops[..at.written] + [m.op]
      else at'.written == at.written
  {
  }

  lemma StepNet(env: S.Env, commits: Commits, turns: seq<Turn>, x: System, turn: Turn, id: TxID, k: Bytes)
    requires Going(commits, x) && Owns(commits, turns, id, k) && turn in turns
    requires Net(x.done, k) == Net(commits[id].ops[..At(x, id).written], k)
    ensures var y := Step(env, commits, x, turn); Net(y.done, k) == Net(commits[id].ops[..At(y, id).written], k)
  {
    hide Exec, Net, WellFormed, Reached, Runnable, Next, Names;
    assert x.done + [] == x.done;
    match turn
    case Plain(op, ts, note) => NetNext(x.done, [], op, k);
    case Advance(u, ts) =>
      if u in commits && Next(commits[u], At(x, u), ts).Some? {
        NextWrites(commits[u], At(x, u), ts);
        var m := Next(commits[u], At(x, u), ts).value.1;
        if m.Write? {
          NamedIn(commits[u].ops, m.op);
          NetNext(x.done, commits[u].ops[..At(x, u).written], m.op, k);
        }
      }
  }

  lemma {:induction false} RunNet(env: S.Env, commits: Commits, d: Disk, all: seq<Turn>, turns: seq<Turn>, id: TxID,
                                  k: Bytes)
    requires Scripted(commits) && Owns(commits, all, id, k) && forall t :: t in turns ==> t in all
    ensures var x := Run(env, commits, d, turns); Net(x.done, k) == Net(commits[id].ops[..At(x, id).written], k)
  {
    hide Step, Going, Owns;
    assert id in commits by {
      OwnerCommits(commits, all, id, k);
    }
    if turns == [] {
      assert commits[id].ops[..0] == [];
    } else {
      var init, last := turns[..|turns| - 1], turns[|turns| - 1];
      assert last in turns && forall t :: t in init ==> t in turns;
      RunNet(env, commits, d, all, init, id, k);
      StepNet(env, commits, all, Run(env, commits, d, init), last, id, k);
    }
  }

  lemma OwnerCommits(commits: Commits, turns: seq<Turn>, id: TxID, k: Bytes)
    requires Owns(commits, turns, id, k)
    ensures id in commits
  {
  }

  lemma {:induction false} UnnamedUntouched(ops: seq<TxOp>, k: Bytes)
    requires !Names(ops, k)
    ensures Net(ops, k).Untouched?
  {
    if ops != [] {
      var init, last := ops[..|ops| - 1], ops[|ops| - 1];
      assert last in ops && forall op :: op in init ==> op in ops;
      UnnamedUntouched(init, k);
    }
  }

  // ---- what the crashed log commits ----

  /** A commit is in if its tagged commit record is; the rest is what the old log committed. */
  lemma CommittedNow(env: S.Env, commits: Commits, d: Disk, turns: seq<Turn>, id: TxID)
    requires Scripted(commits) && id != [] && forall t :: t in turns && t.Plain? ==> t.note.txID == []
    requires forall u :: u in commits ==> u !in TxIDs(d.log)
    ensures var x := Run(env, commits, d, turns);
      if id in commits then
        && (id in Committed(x.disk.log) <==> At(x, id).sent == |commits[id].program|)
        && (id in Committed(x.disk.log) ==> Committed(x.disk.log)[id] == commits[id].ops)
      else
        && (id in Committed(x.disk.log) <==> id in Committed(d.log))
        && (id in Committed(x.disk.log) ==> Committed(x.disk.log)[id] == Committed(d.log)[id])
  {
    hide Committed, Complete, Ops, Tagged, Run;
    var x := Run(env, commits, d, turns);
    RunLog(env, commits, d, turns, id);
    Sessions.GroupDecides(x.disk.log, id);
    Sessions.GroupDecides(d.log, id);
    Sessions.TaggedAreLogged(d.log, id);
    if id in commits {
      var c := commits[id];
      ProgramPrefix(c.program, id, c.ops, At(x, id).sent);
      assert [] + c.program[..At(x, id).sent] == c.program[..At(x, id).sent] && c.program[..|c.program|] == c.program;
    } else {
      assert Tagged(d.log, id) + [] == Tagged(d.log, id);
    }
  }

  lemma TaggedIds(rs: seq<Record>, id: TxID)
    ensures id in Committed(rs) ==> id != []
  {
  }

  /** On a key it owns, a commit alone decides what the replay does. */
  lemma OwnerDecides(env: S.Env, commits: Commits, d: Disk, turns: seq<Turn>, id: TxID, k: Bytes, order: seq<TxID>)
    requires Scripted(commits) && forall t :: t in turns && t.Plain? ==> t.note.txID == []
    requires forall u :: u in commits ==> u !in TxIDs(d.log)
    requires Owns(commits, turns, id, k) && Quiet(Committed(d.log), k)
    requires Enumerates(order, Committed(Run(env, commits, d, turns).disk.log))
    ensures var x := Run(env, commits, d, turns);
      NetIn(Committed(x.disk.log), order, k) ==
        if At(x, id).sent == |commits[id].program| then Net(commits[id].ops, k) else Untouched
  {
    hide Committed, Run;
    var x := Run(env, commits, d, turns);
    var txs := Committed(x.disk.log);
    var t := NetInIsSomeNet(txs, order, k);
    CommittedNow(env, commits, d, turns, id);
    forall u | u in txs && u != id ensures Net(txs[u], k).Untouched? {
      TaggedIds(x.disk.log, u);
      CommittedNow(env, commits, d, turns, u);
      if u in commits {
        UnnamedUntouched(commits[u].ops, k);
      } else {
        assert !Touches(Committed(d.log)[u], k);
      }
    }
  }

  /** The meaning of an owned key after crash and recovery. */
  lemma RecoveredKey(env: S.Env, commits: Commits, d: Disk, turns: seq<Turn>, live: Live, id: TxID, k: Bytes,
                     order: seq<TxID>)
    requires Scripted(commits) && forall t :: t in turns && t.Plain? ==> t.note.txID == []
    requires forall u :: u in commits ==> u !in TxIDs(d.log)
    requires Owns(commits, turns, id, k) && Quiet(Committed(d.log), k)
    requires Enumerates(order, Committed(Run(env, commits, d, turns).disk.log))
    ensures var x := Run(env, commits, d, turns);
      LookLive(LiveAfter(Durable(LiveAfter(live, x.done)), Flat(Committed(x.disk.log), order)), k) ==
        if At(x, id).sent < |commits[id].program| then LookLive(Durable(live), k)
        else LookLive(LiveAfter(Durable(live), commits[id].ops), k)
  {
    hide Committed, Run, Net, NetIn, Flat, LiveAfter, Owns;
    var x := Run(env, commits, d, turns);
    OwnerCommits(commits, turns, id, k);
    var c, at := commits[id], At(x, id);
    OwnerDecides(env, commits, d, turns, id, k, order);
    RunNet(env, commits, d, turns, turns, id, k);
    LiveAfterLook(Durable(LiveAfter(live, x.done)), Flat(Committed(x.disk.log), order), k);
    NetFlat(Committed(x.disk.log), order, k);
    LiveAfterLook(live, x.done, k);
    LiveAfterLook(Durable(live), c.ops, k);
    if at.sent < |c.program| {
      assert c.ops[..0] == [];
      UnnamedUntouched([], k);
    } else if Net(c.ops, k).Untouched? {
      NetOfPrefix(c.ops, at.written, k);
    }
  }

  // ---- atomicity ----

  lemma ReplayableNow(env: S.Env, commits: Commits, d: Disk, turns: seq<Turn>, clock: U32)
    requires Scripted(commits) && Fair(env, commits, turns, clock)
    requires forall u :: u in commits ==> u !in TxIDs(d.log)
    requires forall id, op :: id in Committed(d.log) && op in Committed(d.log)[id] ==> OpOk(env, op)
    ensures var txs := Committed(Run(env, commits, d, turns).disk.log);
      forall id, op :: id in txs && op in txs[id] ==> OpOk(env, op)
  {
    hide Committed, Run, OpOk;
    var log := Run(env, commits, d, turns).disk.log;
    forall id, op | id in Committed(log) && op in Committed(log)[id] ensures OpOk(env, op) {
      TaggedIds(log, id);
      CommittedNow(env, commits, d, turns, id);
    }
  }

  lemma CrashedSystemServes(env: S.Env, commits: Commits, d: Disk, turns: seq<Turn>, tear: Tear, live: Live, clock: U32,
                            order: seq<TxID>, stamps: seq<U32>)
    requires EnvOk(env) && StateHolds(env, d.store, live, clock) && Scripted(commits)
    requires Fair(env, commits, turns, clock)
    requires forall u :: u in commits ==> u !in TxIDs(d.log)
    requires forall id, op :: id in Committed(d.log) && op in Committed(d.log)[id] ==> OpOk(env, op)
    requires tear.written < Size(tear.entry)
    requires var txs := Committed(Run(env, commits, d, turns).disk.log);
      Enumerates(order, txs) && |stamps| == |Flat(txs, order)|
    ensures var x := Run(env, commits, d, turns);
      var txs, files := Committed(x.disk.log), TornFiles(x.disk.store, tear.rotated, tear.entry, tear.written);
      Serves(env, ApplyTxs(env, S.Load(env.codec, files, x.disk.store.snaps), Flat(txs, order), stamps),
             LiveAfter(Durable(LiveAfter(live, x.done)), Flat(txs, order)))
  {
    hide ApplyTxs, LiveAfter, S.Load, Serves, TornFiles, StateHolds, Durable, Run, Committed;
    var x := Run(env, commits, d, turns);
    RunStore(env, commits, d, turns, live, clock);
    ReplayableNow(env, commits, d, turns, clock);
    FlatOk(env, Committed(x.disk.log), order);
    TornServes(env, x.disk.store, LiveAfter(live, x.done), ClockOf(turns, clock),
               tear.rotated, tear.entry, tear.written, x.disk.store.snaps);
    ApplyTxsServe(env,
        S.Load(env.codec, TornFiles(x.disk.store, tear.rotated, tear.entry, tear.written), x.disk.store.snaps),
                  Durable(LiveAfter(live, x.done)), Flat(Committed(x.disk.log), order), stamps);
  }

  /** Whether every key that only one commit names reads as before that commit or as after all of it,
      decided by its tagged commit record. */
  ghost predicate EachAtomic(env: S.Env, commits: Commits, d: Disk, turns: seq<Turn>, live: Live, s: State)
    requires Scripted(commits)
  {
    forall id, k, t: U32 :: Owns(commits, turns, id, k) && Quiet(Committed(d.log), k) ==>
      S.Get(env.codec, s, k, t) == Reads(Left(commits, Run(env, commits, d, turns), live, id), k, t)
  }

  function Left(commits: Commits, x: System, live: Live, id: TxID): Live {
    if id !in commits || At(x, id).sent < |commits[id].program| then Durable(live)
    else LiveAfter(Durable(live), commits[id].ops)
  }

  /** Atomicity under concurrency: any number of commits and plain writes run interleaved, step by step,
      and a crash stops them at any byte. If a log record was cut, the database refuses to open.
      Otherwise it opens, in any iteration order, with each commit all there or not at all on the keys
      that nothing else names. */
  lemma ConcurrentAtomicity(env: S.Env, j: Json, commits: Commits, d: Disk, turns: seq<Turn>, tear: Tear,
                            live: Live, clock: U32, order: seq<TxID>, stamps: seq<U32>)
    requires EnvOk(env) && StateHolds(env, d.store, live, clock) && Scripted(commits)
    requires Fair(env, commits, turns, clock)
    requires forall u :: u in commits ==> u !in TxIDs(d.log)
    requires forall id, op :: id in Committed(d.log) && op in Committed(d.log)[id] ==> OpOk(env, op)
    requires AllReadable(j, commits, d, turns) && Partial(j, tear)
    requires Opening(j, ImageOf(j, Run(env, commits, d, turns).disk, tear), order, stamps)
    ensures var result := Open(env, j, ImageOf(j, Run(env, commits, d, turns).disk, tear), order, stamps);
      && (result.None? <==> tear.sent > 0)
      && (result.Some? ==> EachAtomic(env, commits, d, turns, live, result.value))
  {
    hide ApplyTxs, LiveAfter, S.Load, S.Get, Serves, TornFiles, StateHolds, Reads, Quiet, Owns, Run, Committed, Fair;
    var x := Run(env, commits, d, turns);
    RunReadable(env, j, commits, d, turns, turns);
    ParseTorn(j, x.disk.log, tear.next, tear.sent);
    if tear.sent == 0 {
      CrashedSystemServes(env, commits, d, turns, tear, live, clock, order, stamps);
      var result := Open(env, j, ImageOf(j, x.disk, tear), order, stamps).value;
      var recovered := LiveAfter(Durable(LiveAfter(live, x.done)), Flat(Committed(x.disk.log), order));
      FairNotes(env, commits, turns, clock);
      forall id, k, t: U32 | Owns(commits, turns, id, k) && Quiet(Committed(d.log), k)
        ensures S.Get(env.codec, result, k, t) == Reads(Left(commits, x, live, id), k, t)
      {
        ServesReads(env, result, recovered, k, t);
        OwnerCommits(commits, turns, id, k);
        RecoveredKey(env, commits, d, turns, live, id, k, order);
        SameLookSameRead(recovered, Left(commits, x, live, id), k, t);
      }
    }
  }

  lemma FairNotes(env: S.Env, commits: Commits, turns: seq<Turn>, clock: U32)
    requires Fair(env, commits, turns, clock)
    ensures forall t :: t in turns && t.Plain? ==> t.note.txID == []
  {
  }
}
