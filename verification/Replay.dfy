/** What replaying a log's committed transactions does to the data, in whatever order the
    transaction map happens to be iterated. */
module Replay {
  import opened Bytes
  import opened Wal

  type Data = map<Bytes, Bytes>
  type Txs = map<TxID, seq<TxOp>>

  function Look(m: Data, k: Bytes): Option<Bytes> {
    if k in m then Some(m[k]) else None
  }

  /** Put and Delete refuse the empty key; replay ignores the refusal. */
  function ApplyOp(m: Data, op: TxOp): Data {
    if op.key == [] then m
    else match op
      case PutOp(key, value) => m[key := value]
      case DeleteOp(key) => m - {key}
  }

  function ApplyOps(m: Data, ops: seq<TxOp>): Data {
    if ops == [] then m else ApplyOp(ApplyOps(m, ops[..|ops| - 1]), ops[|ops| - 1])
  }

  // ---- net effects ----

  /** The last thing operations do to one key. */
  datatype Effect = Untouched | Puts(value: Bytes) | Removes

  function Net(ops: seq<TxOp>, k: Bytes): Effect {
    if ops == [] then Untouched
    else
      var last := ops[|ops| - 1];
      if last.key == k && k != [] then (if last.PutOp? then Puts(last.value) else Removes)
      else Net(ops[..|ops| - 1], k)
  }

  function Becomes(e: Effect, before: Option<Bytes>): Option<Bytes> {
    match e
    case Untouched => before
    case Puts(v) => Some(v)
    case Removes => None
  }

  lemma {:induction false} ApplyOpsLook(m: Data, ops: seq<TxOp>, k: Bytes)
    ensures Look(ApplyOps(m, ops), k) == Becomes(Net(ops, k), Look(m, k))
  {
    if ops != [] {
      ApplyOpsLook(m, ops[..|ops| - 1], k);
    }
  }

  lemma SameLooks(m: Data, n: Data)
    requires forall k: Bytes :: Look(m, k) == Look(n, k)
    ensures m == n
  {
    forall k: Bytes ensures (k in m <==> k in n) && (k in m ==> m[k] == n[k]) {
      assert Look(m, k) == Look(n, k);
    }
  }

  // ---- replaying transactions in an order ----

  predicate Enumerates(order: seq<TxID>, txs: Txs) {
    && (forall i, j :: 0 <= i < j < |order| ==> order[i] != order[j])
    && (forall id :: id in order ==> id in txs)
    && (forall id :: id in txs ==> id in order)
  }

  function ReplayIn(m: Data, txs: Txs, order: seq<TxID>): Data
    requires forall id :: id in order ==> id in txs
  {
    if order == [] then m
    else
      assert order[|order| - 1] in order;
      ApplyOps(ReplayIn(m, txs, order[..|order| - 1]), txs[order[|order| - 1]])
  }

  /** The last transaction in the order that touches the key decides. */
  function NetIn(txs: Txs, order: seq<TxID>, k: Bytes): Effect
    requires forall id :: id in order ==> id in txs
  {
    if order == [] then Untouched
    else
      assert order[|order| - 1] in order;
      var e := Net(txs[order[|order| - 1]], k);
      if e.Untouched? then NetIn(txs, order[..|order| - 1], k) else e
  }

  lemma {:induction false} ReplayInLook(m: Data, txs: Txs, order: seq<TxID>, k: Bytes)
    requires forall id :: id in order ==> id in txs
    ensures Look(ReplayIn(m, txs, order), k) == Becomes(NetIn(txs, order, k), Look(m, k))
  {
    if order != [] {
      var init, last := order[..|order| - 1], order[|order| - 1];
      assert last in order;
      ReplayInLook(m, txs, init, k);
      ApplyOpsLook(ReplayIn(m, txs, init), txs[last], k);
    }
  }

  /** Which effect wins is one some transaction has; untouched means none touches the key. */
  lemma {:induction false} NetInIsSomeNet(txs: Txs, order: seq<TxID>, k: Bytes) returns (id: TxID)
    requires forall id :: id in order ==> id in txs
    ensures NetIn(txs, order, k).Untouched? ==> forall i :: i in order ==> Net(txs[i], k).Untouched?
    ensures !NetIn(txs, order, k).Untouched? ==> id in order && Net(txs[id], k) == NetIn(txs, order, k)
  {
    id := [];
    if order != [] {
      var init, last := order[..|order| - 1], order[|order| - 1];
      assert last in order && order == init + [last];
      id := NetInIsSomeNet(txs, init, k);
      if !Net(txs[last], k).Untouched? {
        id := last;
      }
    }
  }

  // ---- when the order does not matter ----

  predicate AgreeOn(txs: Txs, t: TxID, u: TxID, k: Bytes)
    requires t in txs && u in txs
  {
    Net(txs[t], k).Untouched? || Net(txs[u], k).Untouched? || Net(txs[t], k) == Net(txs[u], k)
  }

  /** Transactions that touch a common key leave the same there. */
  ghost predicate Agree(txs: Txs) {
    forall t, u, k :: t in txs && u in txs ==> AgreeOn(txs, t, u, k)
  }

  /** Any transaction can come last. */
  lemma EnumerationEndingIn(txs: Txs, last: TxID) returns (order: seq<TxID>)
    requires last in txs
    ensures Enumerates(order, txs) && order[|order| - 1] == last
  {
    order := AnyOrder(txs.Keys - {last});
    order := order + [last];
  }

  lemma LastDecides(m: Data, txs: Txs, order: seq<TxID>, k: Bytes)
    requires Enumerates(order, txs) && order != [] && !Net(txs[order[|order| - 1]], k).Untouched?
    ensures Look(ReplayIn(m, txs, order), k) == Becomes(Net(txs[order[|order| - 1]], k), Look(m, k))
  {
    ReplayInLook(m, txs, order, k);
  }

  lemma AgreeingOrders(m: Data, txs: Txs, o1: seq<TxID>, o2: seq<TxID>)
    requires Agree(txs) && Enumerates(o1, txs) && Enumerates(o2, txs)
    ensures ReplayIn(m, txs, o1) == ReplayIn(m, txs, o2)
  {
    forall k: Bytes ensures Look(ReplayIn(m, txs, o1), k) == Look(ReplayIn(m, txs, o2), k) {
      ReplayInLook(m, txs, o1, k);
      ReplayInLook(m, txs, o2, k);
      var t := NetInIsSomeNet(txs, o1, k);
      var u := NetInIsSomeNet(txs, o2, k);
      if !NetIn(txs, o1, k).Untouched? && !NetIn(txs, o2, k).Untouched? {
        assert AgreeOn(txs, t, u, k);
      }
    }
    SameLooks(ReplayIn(m, txs, o1), ReplayIn(m, txs, o2));
  }

  ghost predicate OrderFree(m: Data, txs: Txs) {
    forall o1, o2 :: Enumerates(o1, txs) && Enumerates(o2, txs) ==> ReplayIn(m, txs, o1) == ReplayIn(m, txs, o2)
  }

  /** The data after replay is independent of the map's iteration order if and only if
      transactions that touch a common key agree on it. */
  lemma ConfluentIff(m: Data, txs: Txs)
    ensures OrderFree(m, txs) <==> Agree(txs)
  {
    if Agree(txs) {
      forall o1, o2 | Enumerates(o1, txs) && Enumerates(o2, txs)
        ensures ReplayIn(m, txs, o1) == ReplayIn(m, txs, o2)
      {
        AgreeingOrders(m, txs, o1, o2);
      }
    }
    if OrderFree(m, txs) {
      forall t, u, k | t in txs && u in txs ensures AgreeOn(txs, t, u, k) {
        if !Net(txs[t], k).Untouched? && !Net(txs[u], k).Untouched? {
          var o1 := EnumerationEndingIn(txs, t);
          var o2 := EnumerationEndingIn(txs, u);
          LastDecides(m, txs, o1, k);
          LastDecides(m, txs, o2, k);
          assert ReplayIn(m, txs, o1) == ReplayIn(m, txs, o2);
        }
      }
    }
  }

  /** In particular for transactions on pairwise disjoint keys. */
  lemma DisjointAgree(txs: Txs)
    requires forall t, u, k :: t in txs && u in txs && t != u ==> Net(txs[t], k).Untouched? || Net(txs[u], k).Untouched?
    ensures Agree(txs)
  {
    forall t, u, k | t in txs && u in txs ensures AgreeOn(txs, t, u, k) {
    }
  }

  // ---- replaying again ----

  /** Recovering a second time leaves what the second pass's order alone would leave: the
      first pass is forgotten. Under the same order, or when the order does not matter, it changes nothing. */
  lemma ReplayTwice(m: Data, txs: Txs, o1: seq<TxID>, o2: seq<TxID>)
    requires Enumerates(o1, txs) && Enumerates(o2, txs)
    ensures ReplayIn(ReplayIn(m, txs, o1), txs, o2) == ReplayIn(m, txs, o2)
    ensures o1 == o2 || Agree(txs) ==> ReplayIn(ReplayIn(m, txs, o1), txs, o2) == ReplayIn(m, txs, o1)
  {
    var once := ReplayIn(m, txs, o1);
    forall k: Bytes ensures Look(ReplayIn(once, txs, o2), k) == Look(ReplayIn(m, txs, o2), k) {
      ReplayInLook(m, txs, o1, k);
      ReplayInLook(once, txs, o2, k);
      ReplayInLook(m, txs, o2, k);
      var t := NetInIsSomeNet(txs, o1, k);
      var u := NetInIsSomeNet(txs, o2, k);
    }
    SameLooks(ReplayIn(once, txs, o2), ReplayIn(m, txs, o2));
    if Agree(txs) {
      AgreeingOrders(m, txs, o1, o2);
    }
  }

  // ---- which transactions a log commits ----

  function TxIDs(rs: seq<Record>): set<TxID> {
    set r | r in rs && r.txID != [] :: r.txID
  }

  function Groups(rs: seq<Record>): map<TxID, seq<Record>> {
    map id | id in TxIDs(rs) :: Tagged(rs, id)
  }

  function Committed(rs: seq<Record>): Txs {
    map id | id in TxIDs(rs) && Complete(Tagged(rs, id)) :: Ops(Tagged(rs, id))
  }

  lemma {:induction false} TaggedHas(rs: seq<Record>, id: TxID, typ: Byte)
    ensures Has(Tagged(rs, id), typ) <==> exists i :: 0 <= i < |rs| && rs[i].txID == id && rs[i].typ == typ
  {
    if rs != [] {
      var init, last := rs[..|rs| - 1], rs[|rs| - 1];
      TaggedHas(init, id, typ);
      var rest := Tagged(init, id);
      if last.txID == id {
        assert Tagged(rs, id) == rest + [last];
        if Has(rest, typ) {
          var i :| 0 <= i < |rest| && rest[i].typ == typ;
          assert (rest + [last])[i].typ == typ;
        }
        if last.typ == typ {
          assert (rest + [last])[|rest|].typ == typ;
        }
      }
      if exists i :: 0 <= i < |init| && init[i].txID == id && init[i].typ == typ {
        var i :| 0 <= i < |init| && init[i].txID == id && init[i].typ == typ;
        assert rs[i] == init[i];
      }
    }
  }

  /** The log holds a record with this id and type. */
  predicate HasTagged(rs: seq<Record>, id: TxID, typ: Byte) {
    exists i :: 0 <= i < |rs| && rs[i].txID == id && rs[i].typ == typ
  }

  /** Of any log: a transaction is replayed if and only if the log has tagged records of its beginning (3)
      and its commit (4), in whatever order, and none of a rollback (5). */
  lemma CommittedIff(rs: seq<Record>, id: TxID)
    ensures id in Committed(rs) <==> id != [] && HasTagged(rs, id, 3) && HasTagged(rs, id, 4) && !HasTagged(rs, id, 5)
  {
    TaggedHas(rs, id, 3);
    TaggedHas(rs, id, 4);
    TaggedHas(rs, id, 5);
    var group := Tagged(rs, id);
    if Has(group, 3) && Has(group, 4) {
      var i :| 0 <= i < |group| && group[i].typ == 3;
      var j :| 0 <= j < |group| && group[j].typ == 4;
      assert i != j;
    }
    if HasTagged(rs, id, 3) {
      var i :| 0 <= i < |rs| && rs[i].txID == id && rs[i].typ == 3;
      assert rs[i] in rs;
    }
  }

  lemma {:induction false} UntaggedVanish(more: seq<Record>, id: TxID)
    requires id != [] && forall r :: r in more ==> r.txID == []
    ensures Tagged(more, id) == []
  {
    if more != [] {
      UntaggedVanish(more[..|more| - 1], id);
      assert more[|more| - 1] in more;
    }
  }

  /** The untagged records a replay logs do not change what the log commits. */
  lemma UntaggedAddNothing(rs: seq<Record>, more: seq<Record>)
    requires forall r :: r in more ==> r.txID == []
    ensures Committed(rs + more) == Committed(rs)
  {
    assert TxIDs(rs + more) == TxIDs(rs);
    forall id | id in TxIDs(rs) ensures Tagged(rs + more, id) == Tagged(rs, id) {
      TaggedConcat(rs, more, id);
      UntaggedVanish(more, id);
    }
  }
}
