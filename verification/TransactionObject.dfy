/** The transaction object of transaction.go, and the replay loop of wal.go, driving a database. */
module TransactionObject {
  import opened Bytes
  import S = Store
  import opened Wal
  import opened Replay
  import opened Database
  import opened WalManager
  import T = Transactions
  import Sessions
  import Crashes

  /** Put or Delete on a database. */
  method Issue(db: GojiDB, op: TxOp, now: nat) returns (ok: bool)
    modifies db
    ensures db.View() == T.ApplyTx(db.env, old(db.View()), op, Unix(now))
    ensures ok <==> op.key != [] && (op.PutOp? || op.key in old(db.keyDir))
    ensures ok <==> op.key != [] && op.key in db.keyDir
  {
    match op
    case PutOp(key, value) => ok := db.PutWithTTL(key, value, 0, now, now);
    case DeleteOp(key) => ok := db.Delete(key, now);
  }

  /** The same on a database with a log, as replay and Commit issue it: the data file first, then the
      record. A refused operation logs nothing. */
  method IssueLogged(db: GojiDB, wal: WALManager, op: TxOp, now: nat, note: Record) returns (ok: bool)
    requires wal.Valid()
    modifies db, wal
    ensures wal.Valid()
    ensures T.Disk(db.View(), wal.records)
         == T.Exec(db.env, T.Exec(db.env, T.Disk(old(db.View()), old(wal.records)), T.Write(op, Unix(now))),
             T.Note(op, note))
    ensures db.View() == T.ApplyTx(db.env, old(db.View()), op, Unix(now))
    ensures wal.records == old(wal.records) + if ok then [note] else []
    ensures ok <==> T.Accepted(old(db.View()), op)
  {
    ok := Issue(db, op, now);
    if ok {
      wal.WriteRecord(note);
    }
  }

  /** All tagged records are logged and the first i operations are written and noted. */
  function Working(c: T.Commit, i: nat): T.Progress {
    T.Progress(|c.program|, i, i, false)
  }

  class Transaction {
    const id: TxID
    const db: GojiDB
    const wal: WALManager
    var operations: seq<TxOp>

    constructor (id: TxID, db: GojiDB, wal: WALManager)
      ensures this.id == id && this.db == db && this.wal == wal && operations == []
    {
      this.id, this.db, this.wal := id, db, wal;
      operations := [];
    }

    method Put(key: Bytes, value: Bytes)
      modifies this
      ensures operations == old(operations) + [PutOp(key, value)]
      ensures Session() == Sessions.Step(db.env, old(Session()), Sessions.Queue(PutOp(key, value)))
    {
      operations := operations + [PutOp(key, value)];
    }

    method Delete(key: Bytes)
      modifies this
      ensures operations == old(operations) + [DeleteOp(key)]
      ensures Session() == Sessions.Step(db.env, old(Session()), Sessions.Queue(DeleteOp(key)))
    {
      operations := operations + [DeleteOp(key)];
    }

    ghost function Disk(): T.Disk
      reads db, wal
    {
      T.Disk(db.View(), wal.records)
    }

    ghost function Session(): Sessions.Session
      reads this, db, wal
    {
      Sessions.Session(id, operations, Disk())
    }

    /** The commit this object would make with the given clock readings and log notes. */
    ghost predicate Scripts(c: T.Commit, times: seq<nat>, clock: seq<nat>)
      reads this
    {
      && T.WellFormed(c)
      && c.id == id && c.ops == operations
      && |times| == |operations| + 2 && c.program == TxRecords(id, operations, times)
      && |clock| == |operations| && forall i :: 0 <= i < |clock| ==> c.stamps[i] == Unix(clock[i])
    }

    /** Commit takes exactly the steps of `Transactions.After`: all of them, or all up to the first
        Put with an empty key. */
    method Commit(ghost c: T.Commit, times: seq<nat>, clock: seq<nat>, notes: seq<Record>, finalNote: Record)
      returns (ok: bool)
      requires wal.Valid() && Scripts(c, times, clock) && c.notes == notes && c.finalNote == finalNote
      modifies this, db, wal
      ensures wal.Valid()
      ensures Disk() == T.After(db.env, old(Disk()), c, T.Finished(c))
      ensures ok <==> T.Runnable(c.ops) == |c.ops|
      ensures operations == if ok then [] else old(operations)
      ensures Session() == Sessions.Step(db.env, old(Session()), Sessions.Commit(c))
      ensures wal.syncWrites ==> wal.file == wal.LogBytes()
    {
      ghost var start := Disk();
      LogProgram(c, times);
      ok := CommitOperations(c, clock, notes, start);
      if ok {
        FinishCommit(c, finalNote, start);
      }
    }

    method LogProgram(ghost c: T.Commit, times: seq<nat>)
      requires wal.Valid() && T.WellFormed(c)
      requires |times| == |operations| + 2 && c.program == TxRecords(id, operations, times)
      modifies wal
      ensures wal.Valid() && Disk() == T.After(db.env, old(Disk()), c, Working(c, 0))
    {
      wal.WriteTransaction(id, operations, times);
      T.LoggingPhase(db.env, old(Disk()), c, |c.program|);
      assert c.program[..|c.program|] == c.program;
    }

    method FinishCommit(ghost c: T.Commit, finalNote: Record, ghost start: T.Disk)
      requires wal.Valid() && T.WellFormed(c) && T.Runnable(c.ops) == |c.ops| && c.finalNote == finalNote
      requires Disk() == T.After(db.env, start, c, Working(c, |c.ops|))
      modifies this, wal
      ensures wal.Valid() && Disk() == T.After(db.env, start, c, T.Finished(c)) && operations == []
    {
      assert T.LastStep(c, T.Finished(c)) == (Working(c, |c.ops|), T.Log(finalNote));
      wal.WriteRecord(finalNote);
      operations := [];
    }

    method CommitOperations(ghost c: T.Commit, clock: seq<nat>, notes: seq<Record>, ghost start: T.Disk)
      returns (ok: bool)
      requires wal.Valid() && T.WellFormed(c) && c.ops == operations && c.notes == notes
      requires |clock| == |operations| && forall i :: 0 <= i < |clock| ==> c.stamps[i] == Unix(clock[i])
      requires Disk() == T.After(db.env, start, c, Working(c, 0))
      modifies db, wal
      ensures wal.Valid()
      ensures Disk() == T.After(db.env, start, c, Working(c, T.Runnable(c.ops)))
      ensures ok <==> T.Runnable(c.ops) == |c.ops|
    {
      hide T.After, IsProgram, T.Runnable;
      var i := 0;
      while i < |operations|
        invariant 0 <= i <= T.Runnable(c.ops) && wal.Valid() && operations == c.ops
        invariant Disk() == T.After(db.env, start, c, Working(c, i))
      {
        RunnableStops(c.ops, i);
        if operations[i].PutOp? && operations[i].key == [] {
          return false;
        }
        CommitNext(c, operations[i], clock[i], notes[i], i, start);
        i := i + 1;
      }
      return true;
    }

    method CommitNext(ghost c: T.Commit, op: TxOp, now: nat, note: Record, ghost i: nat, ghost start: T.Disk)
      requires wal.Valid() && T.WellFormed(c) && i < T.Runnable(c.ops)
      requires op == c.ops[i] && Unix(now) == c.stamps[i] && note == c.notes[i]
      requires Disk() == T.After(db.env, start, c, Working(c, i))
      modifies db, wal
      ensures wal.Valid() && Disk() == T.After(db.env, start, c, Working(c, i + 1))
    {
      OperationSteps(db.env, start, c, i);
      var _ := IssueLogged(db, wal, op, now, note);
    }

    /** A rollback is noted untagged, and the operations are dropped; the database is not touched. */
    method Rollback(note: Record)
      requires wal.Valid() && note.txID == []
      modifies this, wal
      ensures wal.Valid() && wal.records == old(wal.records) + [note]
      ensures operations == []
      ensures Session() == Sessions.Step(db.env, old(Session()), Sessions.Rollback(note))
      ensures wal.syncWrites ==> wal.file == wal.LogBytes()
    {
      wal.WriteRecord(note);
      operations := [];
    }
  }

  lemma {:induction false} RunnableStops(ops: seq<TxOp>, i: nat)
    requires i <= T.Runnable(ops) && i < |ops|
    ensures i < T.Runnable(ops) <==> !(ops[i].PutOp? && ops[i].key == [])
  {
    if i > 0 {
      RunnableStops(ops[1..], i - 1);
    }
  }

  /** The two steps an operation of Commit takes. */
  lemma OperationSteps(env: S.Env, d: T.Disk, c: T.Commit, i: nat)
    requires T.WellFormed(c) && i < T.Runnable(c.ops)
    ensures T.After(env, d, c, Working(c, i + 1))
      == T.Exec(env, T.Exec(env, T.After(env, d, c, Working(c, i)), T.Write(c.ops[i], c.stamps[i])),
          T.Note(c.ops[i], c.notes[i]))
  {
    assert T.LastStep(c, Working(c, i + 1)) == (Working(c, i).(written := i + 1), T.Note(c.ops[i], c.notes[i]));
    assert T.LastStep(c, Working(c, i).(written := i + 1)) == (Working(c, i), T.Write(c.ops[i], c.stamps[i]));
  }

  // ---- replay ----

  /** The operations replay issues for the groups in the order the map iteration visits them. */
  function Issued(groups: map<TxID, seq<Record>>, order: seq<TxID>): seq<TxOp>
    requires forall id :: id in order ==> id in groups
  {
    if order == [] then []
    else
      assert order[|order| - 1] in order;
      var g := groups[order[|order| - 1]];
      Issued(groups, order[..|order| - 1]) + if Complete(g) then Ops(g) else []
  }

  function OnlyCommitted(rs: seq<Record>, order: seq<TxID>): seq<TxID> {
    if order == [] then []
    else
      var rest := OnlyCommitted(rs, order[..|order| - 1]);
      if order[|order| - 1] in Committed(rs) then rest + [order[|order| - 1]] else rest
  }

  /** Skipping incomplete groups on the way is replaying the committed ones in the same order. */
  lemma {:induction false} IssuedIsFlat(rs: seq<Record>, order: seq<TxID>)
    requires forall id :: id in order ==> id in Groups(rs)
    ensures forall id :: id in OnlyCommitted(rs, order) <==> id in order && id in Committed(rs)
    ensures Issued(Groups(rs), order) == T.Flat(Committed(rs), OnlyCommitted(rs, order))
  {
    if order != [] {
      var init, last := order[..|order| - 1], order[|order| - 1];
      assert order == init + [last];
      IssuedIsFlat(rs, init);
      if last in Committed(rs) {
        assert OnlyCommitted(rs, order)[..|OnlyCommitted(rs, init)|] == OnlyCommitted(rs, init);
      }
    }
  }

  /** The first n readings of the clock. */
  function Stamps(clock: nat -> nat, n: nat): (stamps: seq<U32>)
    ensures |stamps| == n
  {
    if n == 0 then [] else Stamps(clock, n - 1) + [Unix(clock(n - 1))]
  }

  predicate LogsUntagged(r: Record, op: TxOp) {
    r.txID == [] && Logs(r, op)
  }

  /** The log has grown by exactly one untagged record for each of these operations, in order. */
  ghost predicate Noted(before: seq<Record>, after: seq<Record>, ops: seq<TxOp>) {
    && before <= after && |after| == |before| + |ops|
    && forall i :: 0 <= i < |ops| ==> LogsUntagged(after[|before| + i], ops[i])
  }

  lemma NotedNext(before: seq<Record>, after: seq<Record>, ops: seq<TxOp>, op: TxOp, r: Record)
    requires Noted(before, after, ops) && LogsUntagged(r, op)
    ensures Noted(before, after + [r], ops + [op])
  {
    hide LogsUntagged;
    var grown, all := after + [r], ops + [op];
    assert before <= grown;
    forall i | 0 <= i < |all| ensures LogsUntagged(grown[|before| + i], all[i]) {
      assert i < |ops| ==> LogsUntagged(after[|before| + i], ops[i]);
    }
  }

  lemma NotedSame(before: seq<Record>, after: seq<Record>, ops: seq<TxOp>)
    requires Noted(before, after, ops)
    ensures Noted(before, after + [], ops + [])
  {
    assert after + [] == after && ops + [] == ops;
  }

  /** Replay every complete group into the database, which logs each operation it accepts; errors of
      single operations are ignored. */
  method ReplayTransactions(db: GojiDB, wal: WALManager, groups: map<TxID, seq<Record>>, order: seq<TxID>,
                            clock: nat -> nat)
    requires wal.Valid() && forall id :: id in order ==> id in groups
    modifies db, wal
    ensures db.View()
        == T.ApplyTxs(db.env, old(db.View()), Issued(groups, order), Stamps(clock, |Issued(groups, order)|))
    ensures var ops := Issued(groups, order);
      Noted(old(wal.records), wal.records, T.AcceptedOps(db.env, old(db.View()), ops, Stamps(clock, |ops|)))
    ensures wal.Valid()
  {
    hide T.ApplyTx, T.ApplyTxs, T.AcceptedOps, Noted, Issued, Ops, Complete, Stamps;
    var i, next := 0, 0;
    NothingIssued(db.env, db.View(), groups, wal.records);
    assert order[..0] == [] && Stamps(clock, 0) == [];
    while i < |order|
      invariant 0 <= i <= |order| && next == |Issued(groups, order[..i])|
      invariant wal.Valid()
      invariant Noted(old(wal.records), wal.records,
                      T.AcceptedOps(db.env, old(db.View()), Issued(groups, order[..i]), Stamps(clock, next)))
      invariant db.View() == T.ApplyTxs(db.env, old(db.View()), Issued(groups, order[..i]), Stamps(clock, next))
    {
      IssuedNext(groups, order, i);
      var replay, operations := Digest(groups[order[i]]);
      if replay {
        ReplayOne(db, wal, Issued(groups, order[..i]), operations, clock, next, old(db.View()), old(wal.records));
        next := next + |operations|;
      }
      i := i + 1;
    }
    assert order[..|order|] == order;
  }

  lemma NothingIssued(env: S.Env, s: S.Store, groups: map<TxID, seq<Record>>, log: seq<Record>)
    ensures Issued(groups, []) == [] && T.ApplyTxs(env, s, [], []) == s
    ensures Noted(log, log, T.AcceptedOps(env, s, [], []))
  {
  }

  method ReplayOne(db: GojiDB, wal: WALManager, ghost done: seq<TxOp>, operations: seq<TxOp>, clock: nat -> nat,
                   next: nat, ghost start: S.Store, ghost log: seq<Record>)
    requires wal.Valid() && next == |done|
    requires Noted(log, wal.records, T.AcceptedOps(db.env, start, done, Stamps(clock, next)))
    requires db.View() == T.ApplyTxs(db.env, start, done, Stamps(clock, next))
    modifies db, wal
    ensures db.View() == T.ApplyTxs(db.env, start, done + operations, Stamps(clock, next + |operations|))
    ensures Noted(log, wal.records,
                  T.AcceptedOps(db.env, start, done + operations, Stamps(clock, next + |operations|)))
    ensures wal.Valid()
  {
    hide T.ApplyTx, T.ApplyTxs, T.AcceptedOps, T.Exec, Noted, Stamps;
    var j := 0;
    assert done + operations[..0] == done;
    while j < |operations|
      invariant 0 <= j <= |operations| && wal.Valid()
      invariant Noted(log, wal.records,
                      T.AcceptedOps(db.env, start, done + operations[..j], Stamps(clock, next + j)))
      invariant db.View() == T.ApplyTxs(db.env, start, done + operations[..j], Stamps(clock, next + j))
    {
      ApplyTxsNext(db.env, start, done, operations, j, clock);
      var time: nat := *;
      var note := OpRecord([], operations[j], time);
      NotedNext(log, wal.records, T.AcceptedOps(db.env, start, done + operations[..j], Stamps(clock, next + j)),
                operations[j], note);
      NotedSame(log, wal.records, T.AcceptedOps(db.env, start, done + operations[..j], Stamps(clock, next + j)));
      ghost var before, logged := db.View(), wal.records;
      var ok := IssueLogged(db, wal, operations[j], clock(next + j), note);
      assert ok <==> T.Accepted(before, operations[j]);
      assert wal.records == logged + if ok then [note] else [];
      j := j + 1;
    }
    assert operations[..|operations|] == operations;
  }

  lemma ApplyTxsNext(env: S.Env, s: S.Store, done: seq<TxOp>, ops: seq<TxOp>, j: nat, clock: nat -> nat)
    requires j < |ops|
    ensures var n := |done| + j;
      T.ApplyTxs(env, s, done + ops[..j + 1], Stamps(clock, n + 1))
      == T.ApplyTx(env, T.ApplyTxs(env, s, done + ops[..j], Stamps(clock, n)), ops[j], Unix(clock(n)))
    ensures var n := |done| + j;
      T.AcceptedOps(env, s, done + ops[..j + 1], Stamps(clock, n + 1))
      == T.AcceptedOps(env, s, done + ops[..j], Stamps(clock, n))
         + if T.Accepted(T.ApplyTxs(env, s, done + ops[..j], Stamps(clock, n)), ops[j]) then [ops[j]] else []
  {
    hide T.ApplyTx, T.Accepted;
    var n, all := |done| + j, done + ops[..j + 1];
    assert all[..n] == done + ops[..j] && Stamps(clock, n + 1)[..n] == Stamps(clock, n);
  }

  lemma IssuedNext(groups: map<TxID, seq<Record>>, order: seq<TxID>, i: nat)
    requires i < |order| && forall id :: id in order ==> id in groups
    ensures order[i] in groups
    ensures Issued(groups, order[..i + 1])
         == if Complete(groups[order[i]]) then Issued(groups, order[..i]) + Ops(groups[order[i]])
            else Issued(groups, order[..i])
  {
    assert order[..i + 1][..i] == order[..i] && order[i] in order;
  }

  // ---- opening ----

  /** Each key once, in any order. */
  method VisitGroups(groups: map<TxID, seq<Record>>) returns (order: seq<TxID>)
    ensures forall i, j :: 0 <= i < j < |order| ==> order[i] != order[j]
    ensures forall id :: id in order <==> id in groups
  {
    order := [];
    var left := groups.Keys;
    while left != {}
      invariant left <= groups.Keys
      invariant forall i, j :: 0 <= i < j < |order| ==> order[i] != order[j]
      invariant forall id :: id in order <==> id in groups && id !in left
      decreases left
    {
      var id :| id in left;
      order, left := order + [id], left - {id};
    }
  }

  lemma {:induction false} OnlyCommittedDistinct(rs: seq<Record>, order: seq<TxID>)
    requires forall i, j :: 0 <= i < j < |order| ==> order[i] != order[j]
    ensures forall id :: id in OnlyCommitted(rs, order) ==> id in order
    ensures var o := OnlyCommitted(rs, order); forall i, j :: 0 <= i < j < |o| ==> o[i] != o[j]
  {
    if order != [] {
      var init, last := order[..|order| - 1], order[|order| - 1];
      assert forall i, j :: 0 <= i < j < |init| ==> init[i] == order[i] && init[j] == order[j];
      OnlyCommittedDistinct(rs, init);
      assert last !in init;
      assert forall id :: id in OnlyCommitted(rs, init) ==> id in order;
    }
  }

  /** NewGojiDB on whatever bytes are on disk. It fails exactly if the log cannot be read; otherwise it
      is `Crashes.Open`, for some iteration order, and the log has grown by one untagged record for each
      operation accepted. */
  method NewGojiDB(env: S.Env, files: S.Files, snapshots: map<nat, S.Files>, json: Json, syncWrites: bool, log: Bytes,
                   clock: nat -> nat)
    returns (ok: bool, db: GojiDB, wal: WALManager, ghost order: seq<TxID>, ghost stamps: seq<U32>)
    ensures db.env == env && (ok <==> Parse(json, log, []).Some?)
    ensures Crashes.Opening(json, Crashes.Image(files, snapshots, log), order, stamps)
    ensures var image := Crashes.Image(files, snapshots, log);
      Crashes.Open(env, json, image, order, stamps) == if ok then Some(db.View()) else None
    ensures ok ==> stamps == Stamps(clock, |stamps|)
    ensures ok ==> wal.Valid()
    ensures ok ==>
      var records := Parse(json, log, []).value;
      var ops := T.Flat(Committed(records), order);
      |stamps| == |ops|
      && Noted(records, wal.records, T.AcceptedOps(env, S.Load(env.codec, files, snapshots), ops, stamps))
  {
    hide T.ApplyTxs, T.AcceptedOps, Noted, Complete, Ops, S.Load;
    db := new GojiDB(env, files, snapshots);
    wal := new WALManager(json, syncWrites, log);
    order, stamps := [], [];
    var groups;
    ok, groups := wal.ReadTransactions();
    if !ok { return; }
    ghost var records := Parse(json, log, []).value;
    var visits := VisitGroups(groups);
    ReplayTransactions(db, wal, groups, visits, clock);
    IssuedIsFlat(records, visits);
    OnlyCommittedDistinct(records, visits);
    order, stamps := OnlyCommitted(records, visits), Stamps(clock, |Issued(groups, visits)|);
  }
}
