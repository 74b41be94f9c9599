/** What Commit leaves in the log and in the store, record by record. */
module CommitLog {
  import opened Bytes
  import S = Store
  import opened StoreRuns
  import opened Wal
  import opened Transactions
  import TransactionObject

  /** The records that the first n operations log by themselves: one for each that is accepted. */
  function Notes(env: S.Env, s: State, c: Commit, n: nat): seq<Record>
    requires WellFormed(c) && n <= |c.ops|
  {
    if n == 0 then []
    else
      Notes(env, s, c, n - 1)
      + if Accepted(ApplyTxs(env, s, c.ops[..n - 1], c.stamps[..n - 1]), c.ops[n - 1]) then [c.notes[n - 1]] else []
  }

  lemma AcceptedAfter(env: S.Env, s: State, op: TxOp, ts: U32)
    ensures op.key != [] && op.key in ApplyTx(env, s, op, ts).index <==> Accepted(s, op)
  {
    hide S.PutEntry, S.TombstoneEntry;
  }

  /** After n operations: the tagged program, and a note for each accepted one. */
  lemma {:induction false} WorkingIs(env: S.Env, d: Disk, c: Commit, n: nat)
    requires WellFormed(c) && n <= Runnable(c.ops)
    ensures After(env, d, c, TransactionObject.Working(c, n))
         == Disk(ApplyTxs(env, d.store, c.ops[..n], c.stamps[..n]), d.log + c.program + Notes(env, d.store, c, n))
  {
    hide ApplyTx, IsProgram, Runnable, After;
    if n == 0 {
      LoggingPhase(env, d, c, |c.program|);
      assert c.program[..|c.program|] == c.program && d.log + c.program + [] == d.log + c.program;
      assert c.ops[..0] == [] && c.stamps[..0] == [];
    } else {
      WorkingIs(env, d, c, n - 1);
      TransactionObject.OperationSteps(env, d, c, n - 1);
      var s := ApplyTxs(env, d.store, c.ops[..n - 1], c.stamps[..n - 1]);
      AcceptedAfter(env, s, c.ops[n - 1], c.stamps[n - 1]);
      assert c.ops[..n][..n - 1] == c.ops[..n - 1] && c.stamps[..n][..n - 1] == c.stamps[..n - 1];
      NotesNext(d.log + c.program, Notes(env, d.store, c, n - 1), c.notes[n - 1]);
    }
  }

  lemma NotesNext(log: seq<Record>, notes: seq<Record>, r: Record)
    ensures log + (notes + [r]) == (log + notes) + [r] && log + (notes + []) == log + notes
  {
    assert notes + [] == notes;
  }

  /** A whole Commit: the operations up to the first Put with an empty key are applied, in order; the log
      gets the tagged program, one untagged record for each accepted operation, and the final note if
      Commit got through. */
  lemma CommitIs(env: S.Env, d: Disk, c: Commit)
    requires WellFormed(c)
    ensures var m, done := Runnable(c.ops), After(env, d, c, Finished(c));
      && done.store == ApplyTxs(env, d.store, c.ops[..m], c.stamps[..m])
      && done.log == d.log + c.program + Notes(env, d.store, c, m) + if m == |c.ops| then [c.finalNote] else []
  {
    hide ApplyTx, ApplyTxs, IsProgram, Runnable, Notes, After;
    var m := Runnable(c.ops);
    WorkingIs(env, d, c, m);
    Closing(env, d, c);
    var log := d.log + c.program + Notes(env, d.store, c, m);
    assert log + [] == log;
  }

  lemma Closing(env: S.Env, d: Disk, c: Commit)
    requires WellFormed(c)
    ensures var before := After(env, d, c, TransactionObject.Working(c, Runnable(c.ops)));
      After(env, d, c, Finished(c))
      == if Runnable(c.ops) == |c.ops| then before.(log := before.log + [c.finalNote]) else before
  {
    hide ApplyTx;
    var m := Runnable(c.ops);
    if m == |c.ops| {
      assert LastStep(c, Finished(c)) == (TransactionObject.Working(c, m), Log(c.finalNote));
    } else {
      assert Finished(c) == TransactionObject.Working(c, m);
    }
  }
}
