/** The write-ahead log of wal.go: length-prefixed records, what recovery reads back from a cut
    log, and how concurrent writers' records are grouped again. */
module Wal {
  import opened Bytes
  import opened Framing

  const WAL_PUT: Byte := 1
  const WAL_DELETE: Byte := 2
  const WAL_BEGIN: Byte := 3
  const WAL_COMMIT: Byte := 4
  const WAL_ROLLBACK: Byte := 5

  type TxID = Bytes

  /** A record; an empty txID is an untagged one. */
  datatype Record = Record(typ: Byte, timestamp: nat, key: Bytes, value: Bytes, txID: TxID)

  /** JSON is a parameter. It gives a record back as long as key and transaction id are
      valid text; other strings are altered by the encoding. */
  datatype Json = Json(marshal: Record -> Bytes, unmarshal: Bytes -> Option<Record>, text: Bytes -> bool)

  ghost predicate LawfulJson(j: Json) {
    forall r: Record :: j.text(r.key) && j.text(r.txID) ==> j.unmarshal(j.marshal(r)) == Some(r)
  }

  predicate Writable(j: Json, r: Record) {
    j.text(r.key) && j.text(r.txID) && |j.marshal(r)| < TWO32
  }

  // ---- frames ----

  function Frame(j: Json, r: Record): Bytes {
    BE(|j.marshal(r)|, 4) + j.marshal(r)
  }

  function Log(j: Json, rs: seq<Record>): Bytes {
    if rs == [] then [] else Frame(j, rs[0]) + Log(j, rs[1..])
  }

  /** One turn of the recovery loop: a clean end is EOF; a short length, short data or
      undecodable data is an error. */
  function ReadFrame(j: Json, b: Bytes): (o: Outcome<Record>)
    ensures o.Got? ==> 4 <= o.size <= |b|
    ensures o.EOF? <==> b == []
  {
    if b == [] then EOF
    else if |b| < 4 then UnexpectedEOF
    else
      var length := FromBE(b[..4]);
      if |b| < 4 + length then UnexpectedEOF
      else
        match j.unmarshal(b[4..4 + length])
        case None => UnexpectedEOF
        case Some(r) => Got(r, 4 + length)
  }

  /** Everything recovery reads, or None when it gives up with an error (and the database
      refuses to open). */
  function Parse(j: Json, b: Bytes, acc: seq<Record>): Option<seq<Record>>
    decreases |b|
  {
    match ReadFrame(j, b)
    case EOF => Some(acc)
    case UnexpectedEOF => None
    case Got(r, size) => Parse(j, b[size..], acc + [r])
  }

  lemma ReadWritten(j: Json, r: Record, tail: Bytes)
    requires LawfulJson(j) && Writable(j, r)
    ensures ReadFrame(j, Frame(j, r) + tail) == Got(r, |Frame(j, r)|)
  {
    var data := j.marshal(r);
    var b := Frame(j, r) + tail;
    Pow256Widths();
    BERoundTrip(|data|, 4);
    assert b[..4] == BE(|data|, 4);
    assert b[4..4 + |data|] == data;
  }

  lemma ReadCut(j: Json, r: Record, n: nat)
    requires Writable(j, r) && 0 < n < |Frame(j, r)|
    ensures ReadFrame(j, Frame(j, r)[..n]) == UnexpectedEOF
  {
    if n >= 4 {
      Pow256Widths();
      BERoundTrip(|j.marshal(r)|, 4);
      assert Frame(j, r)[..n][..4] == BE(|j.marshal(r)|, 4);
    }
  }

  /** Whether n bytes end exactly after some record. */
  predicate AtBoundary(j: Json, rs: seq<Record>, n: nat) {
    n == 0 || (rs != [] && n >= |Frame(j, rs[0])| && AtBoundary(j, rs[1..], n - |Frame(j, rs[0])|))
  }

  /** How many records those n bytes hold. */
  function Before(j: Json, rs: seq<Record>, n: nat): (m: nat)
    requires AtBoundary(j, rs, n)
    ensures m <= |rs|
  {
    if n == 0 then 0 else 1 + Before(j, rs[1..], n - |Frame(j, rs[0])|)
  }

  lemma {:induction false} BoundaryIsWhole(j: Json, rs: seq<Record>, m: nat)
    requires m <= |rs|
    ensures var n := |Log(j, rs[..m])|; AtBoundary(j, rs, n) && Before(j, rs, n) == m
  {
    if m > 0 {
      assert rs[..m][1..] == rs[1..][..m - 1];
      BoundaryIsWhole(j, rs[1..], m - 1);
    }
  }

  lemma ParseCutStep(j: Json, rs: seq<Record>, n: nat, acc: seq<Record>)
    requires LawfulJson(j) && rs != [] && Writable(j, rs[0]) && n <= |Log(j, rs)|
    ensures var size := |Frame(j, rs[0])|;
      Parse(j, Log(j, rs)[..n], acc) ==
        if n == 0 then Some(acc) else if n < size then None else Parse(j, Log(j, rs[1..])[..n - size], acc + [rs[0]])
  {
    var s, rest := Frame(j, rs[0]), Log(j, rs[1..]);
    var cut := (s + rest)[..n];
    if n == 0 {
    } else if n < |s| {
      assert cut == s[..n];
      ReadCut(j, rs[0], n);
    } else {
      assert cut == s + rest[..n - |s|];
      assert cut[|s|..] == rest[..n - |s|];
      ReadWritten(j, rs[0], rest[..n - |s|]);
    }
  }

  /** A log cut at any byte: recovery reads exactly the records before the cut if the cut is
      at a record boundary, and fails if it is anywhere else. */
  lemma {:induction false} CutLog(j: Json, rs: seq<Record>, n: nat, acc: seq<Record>)
    requires LawfulJson(j) && forall r :: r in rs ==> Writable(j, r)
    requires n <= |Log(j, rs)|
    ensures Parse(j, Log(j, rs)[..n], acc) ==
      if AtBoundary(j, rs, n) then Some(acc + rs[..Before(j, rs, n)]) else None
    decreases |rs|
  {
    hide ReadFrame, Frame;
    if n == 0 || rs == [] {
      assert Log(j, rs)[..n] == [];
      assert acc + rs[..0] == acc;
    } else {
      var size := |Frame(j, rs[0])|;
      ParseCutStep(j, rs, n, acc);
      if size <= n {
        CutLog(j, rs[1..], n - size, acc + [rs[0]]);
        if AtBoundary(j, rs[1..], n - size) {
          var m := Before(j, rs[1..], n - size);
          assert (acc + [rs[0]]) + rs[1..][..m] == acc + rs[..m + 1];
        }
      }
    }
  }

  /** The whole log reads back as it was written. */
  lemma LogRoundTrip(j: Json, rs: seq<Record>)
    requires LawfulJson(j) && forall r :: r in rs ==> Writable(j, r)
    ensures Parse(j, Log(j, rs), []) == Some(rs)
  {
    var b := Log(j, rs);
    assert rs[..|rs|] == rs && b[..|b|] == b;
    BoundaryIsWhole(j, rs, |rs|);
    CutLog(j, rs, |b|, []);
    assert [] + rs == rs;
  }

  /** Reading goes on behind whatever was written whole. */
  lemma {:induction false} ParseConcat(j: Json, rs: seq<Record>, tail: Bytes, acc: seq<Record>)
    requires LawfulJson(j) && forall r :: r in rs ==> Writable(j, r)
    ensures Parse(j, Log(j, rs) + tail, acc) == Parse(j, tail, acc + rs)
    decreases |rs|
  {
    hide ReadFrame, Frame;
    if rs == [] {
      assert Log(j, rs) + tail == tail && acc + rs == acc;
    } else {
      var f, rest := Frame(j, rs[0]), Log(j, rs[1..]) + tail;
      assert Log(j, rs) + tail == f + rest;
      assert (f + rest)[|f|..] == rest;
      assert rs[0] in rs;
      ReadWritten(j, rs[0], rest);
      ParseConcat(j, rs[1..], tail, acc + [rs[0]]);
      assert (acc + [rs[0]]) + rs[1..] == acc + rs;
    }
  }

  /** A log whose last record is only partly there cannot be read at all. */
  lemma ParseTorn(j: Json, rs: seq<Record>, next: Record, n: nat)
    requires LawfulJson(j) && (forall r :: r in rs ==> Writable(j, r)) && Writable(j, next)
    requires n < |Frame(j, next)|
    ensures Parse(j, Log(j, rs) + Frame(j, next)[..n], []) == if n == 0 then Some(rs) else None
  {
    ParseConcat(j, rs, Frame(j, next)[..n], []);
    assert [] + rs == rs;
    if n > 0 {
      ReadCut(j, next, n);
    }
  }

  /** A record that is whole but whose JSON cannot be decoded makes the log unreadable, whatever follows. */
  lemma ParseUndecodable(j: Json, rs: seq<Record>, data: Bytes, tail: Bytes)
    requires LawfulJson(j) && (forall r :: r in rs ==> Writable(j, r))
    requires |data| < 0x1_0000_0000 && j.unmarshal(data) == None
    ensures Parse(j, Log(j, rs) + (BE(|data|, 4) + data + tail), []) == None
  {
    var b := BE(|data|, 4) + data + tail;
    ParseConcat(j, rs, b, []);
    Pow256Widths();
    BERoundTrip(|data|, 4);
    assert b[..4] == BE(|data|, 4) && b[4..4 + |data|] == data;
  }

  // ---- grouping by transaction ----

  /** The records of one transaction, in log order. */
  function Tagged(rs: seq<Record>, id: TxID): seq<Record> {
    if rs == [] then []
    else
      var rest := Tagged(rs[..|rs| - 1], id);
      if rs[|rs| - 1].txID == id then rest + [rs[|rs| - 1]] else rest
  }

  lemma TaggedAppend(rs: seq<Record>, r: Record, id: TxID)
    ensures Tagged(rs + [r], id) == if r.txID == id then Tagged(rs, id) + [r] else Tagged(rs, id)
  {
    assert (rs + [r])[..|rs|] == rs;
  }

  lemma {:induction false} TaggedConcat(rs: seq<Record>, more: seq<Record>, id: TxID)
    ensures Tagged(rs + more, id) == Tagged(rs, id) + Tagged(more, id)
  {
    if more == [] {
      assert rs + more == rs;
    } else {
      var init, last := more[..|more| - 1], more[|more| - 1];
      assert rs + more == (rs + init) + [last];
      assert more == init + [last];
      TaggedAppend(rs + init, last, id);
      TaggedConcat(rs, init, id);
    }
  }

  predicate Has(rs: seq<Record>, typ: Byte) {
    exists i :: 0 <= i < |rs| && rs[i].typ == typ
  }

  /** What recovery demands of a group before replaying it. */
  predicate Complete(group: seq<Record>) {
    |group| >= 2 && Has(group, WAL_BEGIN) && Has(group, WAL_COMMIT) && !Has(group, WAL_ROLLBACK)
  }

  datatype TxOp = PutOp(key: Bytes, value: Bytes) | DeleteOp(key: Bytes)

  /** The operations of a group, in order. */
  function Ops(rs: seq<Record>): seq<TxOp> {
    if rs == [] then []
    else
      var last := rs[|rs| - 1];
      var rest := Ops(rs[..|rs| - 1]);
      if last.typ == WAL_PUT then rest + [PutOp(last.key, last.value)]
      else if last.typ == WAL_DELETE then rest + [DeleteOp(last.key)]
      else rest
  }

  // ---- concurrent writers ----

  /** What WriteTransaction sends for a transaction, one locked WriteRecord at a time. */
  predicate IsProgram(rs: seq<Record>, id: TxID, ops: seq<TxOp>) {
    && |rs| == |ops| + 2
    && (forall r :: r in rs ==> r.txID == id)
    && rs[0].typ == WAL_BEGIN
    && rs[|rs| - 1].typ == WAL_COMMIT
    && forall i :: 0 <= i < |ops| ==> Logs(rs[i + 1], ops[i])
  }

  predicate Logs(r: Record, op: TxOp) {
    match op
    case PutOp(key, value) => r.typ == WAL_PUT && r.key == key && r.value == value
    case DeleteOp(key) => r.typ == WAL_DELETE && r.key == key
  }

  /** The log is shared and locked per record: next comes either some transaction's next record,
      or an untagged record (a plain write, a rollback, a commit note). */
  datatype Turn = Next(id: TxID) | Untagged(r: Record)

  datatype Writers = Writers(log: seq<Record>, sent: map<TxID, nat>)

  function Sent(w: Writers, id: TxID): nat {
    if id in w.sent then w.sent[id] else 0
  }

  predicate Possible(programs: map<TxID, seq<Record>>, w: Writers, t: Turn) {
    match t
    case Next(id) => id in programs && Sent(w, id) < |programs[id]|
    case Untagged(r) => r.txID == []
  }

  function Take(programs: map<TxID, seq<Record>>, w: Writers, t: Turn): Writers
    requires Possible(programs, w, t)
  {
    match t
    case Next(id) => Writers(w.log + [programs[id][Sent(w, id)]], w.sent[id := Sent(w, id) + 1])
    case Untagged(r) => w.(log := w.log + [r])
  }

  /** The state a schedule leads to, if it is a schedule at all; a crash may stop it anywhere. */
  function Interleave(programs: map<TxID, seq<Record>>, turns: seq<Turn>): Option<Writers> {
    if turns == [] then Some(Writers([], map[]))
    else
      match Interleave(programs, turns[..|turns| - 1])
      case None => None
      case Some(w) =>
        var t := turns[|turns| - 1];
        if Possible(programs, w, t) then Some(Take(programs, w, t)) else None
  }

  ghost predicate Tidy(programs: map<TxID, seq<Record>>) {
    forall id :: id in programs ==> id != [] && forall r :: r in programs[id] ==> r.txID == id
  }

  lemma {:induction false} InterleavingKeepsOrder(programs: map<TxID, seq<Record>>, turns: seq<Turn>, w: Writers,
                                                  id: TxID)
    requires Tidy(programs) && Interleave(programs, turns) == Some(w) && id != []
    ensures id in programs ==> Sent(w, id) <= |programs[id]| && Tagged(w.log, id) == programs[id][..Sent(w, id)]
    ensures id !in programs ==> Tagged(w.log, id) == []
  {
    if turns != [] {
      var t := turns[|turns| - 1];
      var w0 := Interleave(programs, turns[..|turns| - 1]).value;
      InterleavingKeepsOrder(programs, turns[..|turns| - 1], w0, id);
      TakeKeepsOrder(programs, w0, t, id);
    }
  }

  lemma TakeKeepsOrder(programs: map<TxID, seq<Record>>, w: Writers, t: Turn, id: TxID)
    requires Tidy(programs) && Possible(programs, w, t) && id != []
    requires id in programs ==> Sent(w, id) <= |programs[id]| && Tagged(w.log, id) == programs[id][..Sent(w, id)]
    requires id !in programs ==> Tagged(w.log, id) == []
    ensures var w' := Take(programs, w, t);
      && (id in programs ==> Sent(w', id) <= |programs[id]| && Tagged(w'.log, id) == programs[id][..Sent(w', id)])
      && (id !in programs ==> Tagged(w'.log, id) == [])
  {
    if t.Next? {
      var r := programs[t.id][Sent(w, t.id)];
      assert r in programs[t.id];
      TaggedAppend(w.log, r, id);
    } else {
      TaggedAppend(w.log, t.r, id);
    }
  }

  lemma {:induction false} OpsOfProgram(rs: seq<Record>, ops: seq<TxOp>, n: nat)
    requires n <= |ops| && n + 1 <= |rs|
    requires rs[0].typ == WAL_BEGIN && forall i :: 0 <= i < |ops| && i + 1 < |rs| ==> Logs(rs[i + 1], ops[i])
    ensures Ops(rs[..n + 1]) == ops[..n]
  {
    var p := rs[..n + 1];
    assert p[..|p| - 1] == rs[..n];
    if n > 0 {
      OpsOfProgram(rs, ops, n - 1);
      assert ops[..n] == ops[..n - 1] + [ops[n - 1]];
    } else {
      assert Ops(p[..0]) == [];
    }
  }

  /** Of a transaction's program cut after n records, recovery replays all or nothing. */
  lemma ProgramPrefix(rs: seq<Record>, id: TxID, ops: seq<TxOp>, n: nat)
    requires IsProgram(rs, id, ops) && n <= |rs|
    ensures Complete(rs[..n]) <==> n == |rs|
    ensures Ops(rs) == ops
  {
    if n == |rs| {
      assert rs[..n] == rs && rs[0].typ == WAL_BEGIN && rs[|rs| - 1].typ == WAL_COMMIT;
    }
    forall i | 0 <= i < |rs| ensures rs[i].typ != WAL_ROLLBACK && (rs[i].typ == WAL_COMMIT ==> i == |rs| - 1) {
      if 0 < i < |rs| - 1 {
        assert Logs(rs[i], ops[i - 1]);
      }
    }
    OpsOfProgram(rs, ops, |ops|);
    assert rs[..|rs| - 1] == rs[..|ops| + 1] && ops[..|ops|] == ops;
  }

  /** However the records of transactions with distinct ids and untagged records interleave,
      and wherever the log stops: recovery finds each transaction's own operations in program
      order, replays it exactly if its tagged commit was logged, and replays nothing else. (What an
      object logs that is committed several times, or rolled back, is in `Sessions`.) */
  lemma InterleavingRecovered(programs: map<TxID, seq<Record>>, turns: seq<Turn>, w: Writers, id: TxID, ops: seq<TxOp>)
    requires Tidy(programs) && Interleave(programs, turns) == Some(w) && id != []
    ensures id !in programs ==> !Complete(Tagged(w.log, id))
    ensures id in programs && IsProgram(programs[id], id, ops) ==>
      && (Complete(Tagged(w.log, id)) <==> Sent(w, id) == |programs[id]|)
      && (Complete(Tagged(w.log, id)) ==> Ops(Tagged(w.log, id)) == ops)
  {
    InterleavingKeepsOrder(programs, turns, w, id);
    if id in programs && IsProgram(programs[id], id, ops) {
      ProgramPrefix(programs[id], id, ops, Sent(w, id));
      assert programs[id][..|programs[id]|] == programs[id];
    }
  }
}
