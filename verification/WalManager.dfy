/** The log writer and reader of wal.go, and the transaction object of transaction.go, as
    objects that change in place; each method is tied to `Wal`, `Replay` or `Transactions`. */
module WalManager {
  import opened Bytes
  import opened Framing
  import opened Wal
  import opened Replay
  import opened Database
  import T = Transactions

  const BUFFER_SIZE := 65536

  lemma {:induction false} LogConcat(j: Json, rs: seq<Record>, more: seq<Record>)
    ensures Log(j, rs + more) == Log(j, rs) + Log(j, more)
  {
    if rs == [] {
      assert [] + more == more;
    } else {
      assert (rs + more)[1..] == rs[1..] + more;
      LogConcat(j, rs[1..], more);
    }
  }

  lemma LogGrows(j: Json, found: Bytes, known: seq<Record>, records: seq<Record>, r: Record)
    requires known <= records
    ensures found + Log(j, (records + [r])[|known|..])
         == found + Log(j, records[|known|..]) + BE(|j.marshal(r)|, 4) + j.marshal(r)
  {
    assert (records + [r])[|known|..] == records[|known|..] + [r];
    LogConcat(j, records[|known|..], [r]);
    assert Log(j, [r]) == BE(|j.marshal(r)|, 4) + j.marshal(r);
  }

  /** The records WriteTransaction makes, stamped with the given clock readings. */
  function TxRecords(id: TxID, ops: seq<TxOp>, times: seq<nat>): (rs: seq<Record>)
    requires |times| == |ops| + 2
    ensures |rs| == |ops| + 2
  {
    [Record(WAL_BEGIN, times[0], [], [], id)]
    + seq(|ops|, i requires 0 <= i < |ops| => OpRecord(id, ops[i], times[i + 1]))
    + [Record(WAL_COMMIT, times[|ops| + 1], [], [], id)]
  }

  function OpRecord(id: TxID, op: TxOp, time: nat): Record {
    match op
    case PutOp(key, value) => Record(WAL_PUT, time, key, value, id)
    case DeleteOp(key) => Record(WAL_DELETE, time, key, [], id)
  }

  /** They are a program in the sense of `Wal`, so recovery treats them as one transaction. */
  lemma TxRecordsAreProgram(id: TxID, ops: seq<TxOp>, times: seq<nat>)
    requires |times| == |ops| + 2
    ensures IsProgram(TxRecords(id, ops, times), id, ops)
  {
  }

  class WALManager {
    const json: Json
    const syncWrites: bool
    var file: Bytes
    var buffer: Bytes
    var totalRecords: nat
    var transactionCommits: nat
    var transactionRollbacks: nat
    /** The bytes found at opening, and all records: those read back from these bytes, then those
        written since. */
    ghost const found: Bytes
    ghost const known: seq<Record>
    ghost var records: seq<Record>

    ghost function LogBytes(): Bytes
      reads this
      requires known <= records
    {
      found + Log(json, records[|known|..])
    }

    /** File and buffer together are the log. */
    ghost predicate Whole()
      reads this
    {
      && known <= records && Parse(json, found, []) == Some(known)
      && file + buffer == LogBytes() && |buffer| <= BUFFER_SIZE
    }

    /** Between records, synced writes leave nothing in the buffer. */
    ghost predicate Valid()
      reads this
    {
      Whole() && (syncWrites ==> buffer == [])
    }

    /** Open a log file, whatever it holds; an empty one for a new database. The manager is good for
        writing if and only if the file can be read. */
    constructor (json: Json, syncWrites: bool, log: Bytes)
      ensures this.json == json && this.syncWrites == syncWrites && file == log
      ensures Valid() <==> Parse(json, log, []).Some?
      ensures Valid() ==> Parse(json, log, []) == Some(records)
    {
      this.json, this.syncWrites := json, syncWrites;
      file, buffer, found := log, [], log;
      totalRecords, transactionCommits, transactionRollbacks := 0, 0, 0;
      ghost var parsed := Parse(json, log, []);
      known := if parsed.Some? then parsed.value else [];
      records := if parsed.Some? then parsed.value else [];
      new;
      assert records[|known|..] == [] && log + [] == log;
    }

    /** `bufio.Writer.Write`: full buffers go to the file, so a crash can cut a record. */
    method BufferedWrite(data: Bytes)
      requires |buffer| <= BUFFER_SIZE
      modifies this`file, this`buffer
      ensures |buffer| <= BUFFER_SIZE && file + buffer == old(file + buffer) + data
      ensures old(file) <= file
      ensures |old(buffer)| + |data| <= 65536 ==> file == old(file)
    {
      var p := data;
      while |p| > BUFFER_SIZE - |buffer|
        invariant |buffer| <= BUFFER_SIZE && old(file) <= file
        invariant file + buffer + p == old(file + buffer) + data
        invariant |old(buffer)| + |data| <= 65536 ==> file == old(file) && buffer == old(buffer) && p == data
        decreases |p|, |buffer|
      {
        if |buffer| == 0 {
          file := file + p;
          p := [];
        } else {
          var n := BUFFER_SIZE - |buffer|;
          file := file + (buffer + p[..n]);
          buffer := [];
          p := p[n..];
        }
      }
      buffer := buffer + p;
    }

    method Flush()
      modifies this`file, this`buffer
      ensures buffer == [] && file == old(file + buffer)
    {
      file, buffer := file + buffer, [];
    }

    /** The length prefix, then the data. */
    method WriteFrame(r: Record)
      requires Whole()
      modifies this`file, this`buffer, this`records
      ensures Whole() && records == old(records) + [r]
      ensures |old(buffer)| + 4 + |json.marshal(r)| <= 65536 ==> file == old(file)
    {
      hide Log, Parse;
      LogGrows(json, found, known, records, r);
      var data := json.marshal(r);
      BufferedWrite(BE(|data|, 4));
      BufferedWrite(data);
      records := records + [r];
    }

    method WriteRecord(r: Record)
      requires Valid()
      modifies this
      ensures Valid() && records == old(records) + [r]
      ensures syncWrites ==> file == LogBytes()
      ensures !syncWrites && |old(buffer)| + 4 + |json.marshal(r)| <= 65536 ==> file == old(file)
      ensures totalRecords == old(totalRecords) + 1
      ensures transactionCommits == old(transactionCommits) + if r.typ == WAL_COMMIT then 1 else 0
      ensures transactionRollbacks == old(transactionRollbacks) + if r.typ == WAL_ROLLBACK then 1 else 0
    {
      WriteFrame(r);
      if syncWrites {
        Flush();
      }
      totalRecords := totalRecords + 1;
      if r.typ == WAL_COMMIT {
        transactionCommits := transactionCommits + 1;
      } else if r.typ == WAL_ROLLBACK {
        transactionRollbacks := transactionRollbacks + 1;
      }
    }

    /** Begin, the operations in order, commit: one locked write each. */
    method WriteTransaction(txID: TxID, operations: seq<TxOp>, times: seq<nat>)
      requires Valid() && |times| == |operations| + 2
      modifies this
      ensures Valid() && records == old(records) + TxRecords(txID, operations, times)
      ensures syncWrites ==> file == LogBytes()
    {
      hide Parse, Log;
      ghost var program := TxRecords(txID, operations, times);
      WriteRecord(Record(WAL_BEGIN, times[0], [], [], txID));
      assert program[..1] == [Record(WAL_BEGIN, times[0], [], [], txID)];
      var i := 0;
      while i < |operations|
        invariant 0 <= i <= |operations| && Valid()
        invariant records == old(records) + program[..i + 1]
      {
        WriteRecord(OpRecord(txID, operations[i], times[i + 1]));
        assert program[..i + 2] == program[..i + 1] + [program[i + 1]];
        i := i + 1;
      }
      WriteRecord(Record(WAL_COMMIT, times[|operations| + 1], [], [], txID));
      assert program == program[..|operations| + 1] + [program[|operations| + 1]];
    }

    /** Read the log file back and collect the tagged records by transaction. */
    method ReadTransactions() returns (ok: bool, transactions: map<TxID, seq<Record>>)
      ensures ok <==> Parse(json, file, []).Some?
      ensures ok ==> transactions == Groups(Parse(json, file, []).value)
    {
      ghost var seen: seq<Record> := [];
      var r := file;
      transactions := map[];
      while r != []
        invariant Parse(json, r, seen) == Parse(json, file, [])
        invariant transactions == Groups(seen)
        decreases |r|
      {
        var frame := ReadFrame(json, r);
        if !frame.Got? {
          return false, transactions;
        }
        var record := frame.item;
        GroupsAppend(seen, record);
        if record.txID != [] {
          var sofar := if record.txID in transactions then transactions[record.txID] else [];
          transactions := transactions[record.txID := sofar + [record]];
        }
        seen := seen + [record];
        r := r[frame.size..];
      }
      return true, transactions;
    }
  }

  lemma GroupsAppend(rs: seq<Record>, r: Record)
    ensures Groups(rs + [r]) ==
      if r.txID == [] then Groups(rs)
      else Groups(rs)[r.txID := (if r.txID in Groups(rs) then Groups(rs)[r.txID] else []) + [r]]
  {
    var target := if r.txID == [] then Groups(rs)
      else Groups(rs)[r.txID := (if r.txID in Groups(rs) then Groups(rs)[r.txID] else []) + [r]];
    assert TxIDs(rs + [r]) == TxIDs(rs) + if r.txID == [] then {} else {r.txID} by {
      assert r in rs + [r];
    }
    forall id | id in Groups(rs + [r]) ensures id in target && Groups(rs + [r])[id] == target[id] {
      TaggedAppend(rs, r, id);
      if id == r.txID && id !in Groups(rs) {
        forall q | q in rs ensures q.txID != id {
        }
        T.NoTagOutside(rs, id);
      }
    }
  }

  /** One group as replayTransactions reads it: three flags and the operations. */
  method Digest(records: seq<Record>) returns (replay: bool, operations: seq<TxOp>)
    ensures replay <==> Complete(records)
    ensures operations == Ops(records)
  {
    var beginFound, commitFound, rollbackFound := false, false, false;
    operations := [];
    var i := 0;
    assert records[..0] == [] && Ops([]) == [] && forall typ: Byte :: !Has([], typ);
    hide Has, Ops;
    while i < |records|
      invariant 0 <= i <= |records|
      invariant beginFound <==> Has(records[..i], WAL_BEGIN)
      invariant commitFound <==> Has(records[..i], WAL_COMMIT)
      invariant rollbackFound <==> Has(records[..i], WAL_ROLLBACK)
      invariant operations == Ops(records[..i])
    {
      var record := records[i];
      HasAppend(records[..i], record);
      OpsAppend(records[..i], record);
      assert records[..i + 1] == records[..i] + [record];
      if record.typ == WAL_BEGIN {
        beginFound := true;
      } else if record.typ == WAL_COMMIT {
        commitFound := true;
      } else if record.typ == WAL_ROLLBACK {
        rollbackFound := true;
      } else if record.typ == WAL_PUT {
        operations := operations + [PutOp(record.key, record.value)];
      } else if record.typ == WAL_DELETE {
        operations := operations + [DeleteOp(record.key)];
      }
      i := i + 1;
    }
    assert records[..|records|] == records;
    replay := |records| >= 2 && beginFound && commitFound && !rollbackFound;
  }

  lemma OpsAppend(rs: seq<Record>, r: Record)
    ensures Ops(rs + [r])
         == if r.typ == WAL_PUT then Ops(rs) + [PutOp(r.key, r.value)]
            else if r.typ == WAL_DELETE then Ops(rs) + [DeleteOp(r.key)]
            else Ops(rs)
  {
    assert (rs + [r])[..|rs|] == rs;
  }

  lemma HasAppend(rs: seq<Record>, r: Record)
    ensures forall typ: Byte :: Has(rs + [r], typ) <==> Has(rs, typ) || r.typ == typ
  {
    forall typ: Byte ensures Has(rs + [r], typ) <==> Has(rs, typ) || r.typ == typ {
      if Has(rs, typ) {
        var i :| 0 <= i < |rs| && rs[i].typ == typ;
        assert (rs + [r])[i].typ == typ;
      }
      assert (rs + [r])[|rs|] == r;
    }
  }
}
