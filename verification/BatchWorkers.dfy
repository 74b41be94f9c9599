/** BatchGet of db.go as it runs: grouping, sorting, workers that take files and fill their buffers,
    and the answers as they read once all workers are done. */
module BatchWorkers {
  import opened Bytes
  import opened Codec
  import S = Store
  import opened BatchRead
  import opened BatchSchedules
  import opened Database

  /** A read request, as prepared from the index. */
  datatype Request = Request(key: Key, info: S.KeyDir)

  function KeysOf(requests: seq<Request>): (ks: seq<Key>)
    ensures |ks| == |requests| && forall i :: 0 <= i < |ks| ==> ks[i] == requests[i].key
  {
    seq(|requests|, i requires 0 <= i < |requests| => requests[i].key)
  }

  predicate FromIndex(index: S.Index, requests: seq<Request>) {
    forall r :: r in requests ==> r.key in index && r.info == index[r.key]
  }

  predicate Ascending(requests: seq<Request>) {
    forall i, j :: 0 <= i < j < |requests| ==> requests[i].info.valuePos <= requests[j].info.valuePos
  }

  // ---- one file ----

  /** Requests in order of their offsets. */
  method SortByOffset(requests: seq<Request>) returns (sorted: seq<Request>)
    ensures Ascending(sorted) && multiset(KeysOf(sorted)) == multiset(KeysOf(requests))
    ensures forall r :: r in sorted <==> r in requests
  {
    hide Ascending;
    sorted := [];
    assert Ascending(sorted) by {
      NoRequests();
    }
    var i := 0;
    while i < |requests|
      invariant 0 <= i <= |requests| && Ascending(sorted)
      invariant multiset(KeysOf(sorted)) == multiset(KeysOf(requests[..i]))
      invariant forall r :: r in sorted <==> r in requests[..i]
    {
      sorted := Insert(sorted, requests[i]);
      assert requests[..i + 1] == requests[..i] + [requests[i]];
      assert KeysOf(requests[..i + 1]) == KeysOf(requests[..i]) + [requests[i].key];
      i := i + 1;
    }
    assert requests[..|requests|] == requests;
  }

  lemma NoRequests()
    ensures Ascending([])
  {
  }

  method Insert(sorted: seq<Request>, r: Request) returns (out: seq<Request>)
    requires Ascending(sorted)
    ensures Ascending(out) && multiset(KeysOf(out)) == multiset(KeysOf(sorted)) + multiset{r.key}
    ensures forall x :: x in out <==> x in sorted || x == r
  {
    hide KeysOf, Ascending;
    var i := |sorted|;
    while i > 0 && sorted[i - 1].info.valuePos > r.info.valuePos
      invariant 0 <= i <= |sorted|
      invariant forall j :: i <= j < |sorted| ==> sorted[j].info.valuePos > r.info.valuePos
    {
      i := i - 1;
    }
    out := sorted[..i] + [r] + sorted[i..];
    InsertedElements(sorted, r, i);
    InsertedAscending(sorted, r, i);
  }

  lemma InsertedAscending(s: seq<Request>, r: Request, i: nat)
    requires i <= |s| && Ascending(s) && (i > 0 ==> s[i - 1].info.valuePos <= r.info.valuePos)
    requires forall j :: i <= j < |s| ==> s[j].info.valuePos > r.info.valuePos
    ensures Ascending(s[..i] + [r] + s[i..])
  {
    var out := s[..i] + [r] + s[i..];
    forall j, k | 0 <= j < k < |out| ensures out[j].info.valuePos <= out[k].info.valuePos {
      assert out[j] == if j < i then s[j] else if j == i then r else s[j - 1];
      assert out[k] == if k < i then s[k] else if k == i then r else s[k - 1];
    }
  }

  lemma InsertedElements(s: seq<Request>, r: Request, i: nat)
    requires i <= |s|
    ensures forall x :: x in s[..i] + [r] + s[i..] <==> x in s || x == r
    ensures multiset(KeysOf(s[..i] + [r] + s[i..])) == multiset(KeysOf(s)) + multiset{r.key}
  {
    var a, b := s[..i], s[i..];
    assert s == a + b;
    assert KeysOf(s) == KeysOf(a) + KeysOf(b);
    assert KeysOf(a + [r] + b) == KeysOf(a) + [r.key] + KeysOf(b);
  }

  /** Serve one file's requests, in order of offset, with the worker's buffer. */
  method ProcessFileTask(db: GojiDB, requests: seq<Request>, worker: Worker) returns (w: Worker, ghost order: seq<Key>)
    requires FromIndex(db.keyDir, requests) && |worker.buffer| == BUFFER_SIZE
    ensures multiset(order) == multiset(KeysOf(requests)) && ByOffset(db.keyDir, order)
    ensures w == ServeAll(db.env.codec, db.files, db.keyDir, worker, order)
  {
    hide SlotFor, Raw, Filled;
    var sorted := SortByOffset(requests);
    order := KeysOf(sorted);
    SortedRequests(db.keyDir, requests, sorted);
    w := worker;
    var i := 0;
    while i < |sorted|
      invariant 0 <= i <= |sorted| && |w.buffer| == BUFFER_SIZE
      invariant w == ServeAll(db.env.codec, db.files, db.keyDir, worker, order[..i])
    {
      var r := sorted[i];
      assert r in sorted && order[..i + 1][..i] == order[..i] && order[i] == r.key;
      w := Worker(Filled(w.buffer, Raw(db.files, r.info)),
                  w.results[r.key := SlotFor(db.env.codec, db.files, r.info, BUFFER_SIZE)]);
      i := i + 1;
    }
    assert order[..|order|] == order;
  }

  lemma SortedRequests(index: S.Index, requests: seq<Request>, sorted: seq<Request>)
    requires FromIndex(index, requests) && Ascending(sorted) && forall r :: r in sorted <==> r in requests
    ensures FromIndex(index, sorted) && ByOffset(index, KeysOf(sorted))
  {
    forall k | k in KeysOf(sorted) ensures k in index {
      var i :| 0 <= i < |sorted| && sorted[i].key == k;
      assert sorted[i] in requests;
    }
    forall i, j | 0 <= i < j < |sorted| ensures index[KeysOf(sorted)[i]].valuePos <= index[KeysOf(sorted)[j]].valuePos {
      assert sorted[i] in requests && sorted[j] in requests;
    }
  }

  // ---- grouping ----

  ghost predicate Grouped(s: S.Store, seen: seq<Key>, now: U32, groups: map<nat, seq<Request>>) {
    && groups.Keys == FilesAsked(s, seen, now)
    && forall f :: f in groups ==> FromIndex(s.index, groups[f]) && KeysOf(groups[f]) == Asked(s, seen, now, f)
  }

  /** Exactly the keys without a value have their empty result already. */
  ghost predicate Empties(s: S.Store, seen: seq<Key>, now: U32, results: map<Key, Bytes>) {
    && (forall k :: k in results <==> k in seen && !Readable(s, k, now))
    && (forall k :: k in results ==> results[k] == [])
  }

  method GroupRequests(db: GojiDB, keys: seq<Key>, now: U32)
    returns (groups: map<nat, seq<Request>>, results: map<Key, Bytes>)
    ensures Grouped(db.View(), keys, now, groups)
    ensures Empties(db.View(), keys, now, results)
  {
    hide Grouped, Empties;
    NothingSeen(db.View(), now);
    groups, results := map[], map[];
    var i := 0;
    assert keys[..0] == [];
    while i < |keys|
      invariant 0 <= i <= |keys|
      invariant Grouped(db.View(), keys[..i], now, groups)
      invariant Empties(db.View(), keys[..i], now, results)
    {
      var key := keys[i];
      assert keys[..i + 1] == keys[..i] + [key];
      if key == [] || key !in db.keyDir || db.keyDir[key].deleted || S.Expired(db.keyDir[key].ttl, now) {
        NoValue(db.View(), keys[..i], now, groups, results, key);
        results := results[key := []];
      } else {
        var r := Request(key, db.keyDir[key]);
        AddRequest(db.View(), keys[..i], now, groups, r);
        StillEmpty(db.View(), keys[..i], now, results, key);
        var file := r.info.fileID;
        groups := groups[file := (if file in groups then groups[file] else []) + [r]];
      }
      i := i + 1;
    }
    assert keys[..|keys|] == keys;
  }

  lemma NothingSeen(s: S.Store, now: U32)
    ensures Grouped(s, [], now, map[]) && Empties(s, [], now, map[])
  {
  }

  lemma StillEmpty(s: S.Store, seen: seq<Key>, now: U32, results: map<Key, Bytes>, key: Key)
    requires Empties(s, seen, now, results) && Readable(s, key, now)
    ensures Empties(s, seen + [key], now, results)
  {
  }

  lemma AskedAppend(s: S.Store, seen: seq<Key>, now: U32, key: Key, f: nat)
    ensures Asked(s, seen + [key], now, f)
         == Asked(s, seen, now, f) + if Readable(s, key, now) && s.index[key].fileID == f then [key] else []
  {
    assert (seen + [key])[..|seen|] == seen;
  }

  lemma NoValue(s: S.Store, seen: seq<Key>, now: U32, groups: map<nat, seq<Request>>, results: map<Key, Bytes>,
                key: Key)
    requires Grouped(s, seen, now, groups) && Empties(s, seen, now, results) && !Readable(s, key, now)
    ensures Grouped(s, seen + [key], now, groups) && Empties(s, seen + [key], now, results[key := []])
  {
    hide FromIndex, Readable;
    assert FilesAsked(s, seen + [key], now) == FilesAsked(s, seen, now);
    forall f | f in groups ensures KeysOf(groups[f]) == Asked(s, seen + [key], now, f) {
      AskedAppend(s, seen, now, key, f);
    }
  }

  lemma AddRequest(s: S.Store, seen: seq<Key>, now: U32, groups: map<nat, seq<Request>>, r: Request)
    requires Grouped(s, seen, now, groups) && Readable(s, r.key, now) && r.info == s.index[r.key]
    ensures var file := r.info.fileID;
      Grouped(s, seen + [r.key], now, groups[file := (if file in groups then groups[file] else []) + [r]])
  {
    hide Asked, Readable, FromIndex, KeysOf, FilesAsked;
    var file := r.info.fileID;
    var group := (if file in groups then groups[file] else []) + [r];
    AddToGroup(s, seen, now, groups, r);
    FilesAppend(s, seen, now, r.key);
    var groups' := groups[file := group];
    assert groups'.Keys == groups.Keys + {file};
    forall f | f in groups'
      ensures FromIndex(s.index, groups'[f]) && KeysOf(groups'[f]) == Asked(s, seen + [r.key], now, f)
    {
      if f != file {
        OtherGroup(s, seen, now, groups, r.key, f);
      }
    }
  }

  lemma OtherGroup(s: S.Store, seen: seq<Key>, now: U32, groups: map<nat, seq<Request>>, key: Key, f: nat)
    requires Grouped(s, seen, now, groups) && Readable(s, key, now) && s.index[key].fileID != f && f in groups
    ensures FromIndex(s.index, groups[f]) && KeysOf(groups[f]) == Asked(s, seen + [key], now, f)
  {
    AskedAppend(s, seen, now, key, f);
  }

  lemma AddToGroup(s: S.Store, seen: seq<Key>, now: U32, groups: map<nat, seq<Request>>, r: Request)
    requires Grouped(s, seen, now, groups) && Readable(s, r.key, now) && r.info == s.index[r.key]
    ensures var file := r.info.fileID;
      var group := (if file in groups then groups[file] else []) + [r];
      FromIndex(s.index, group) && KeysOf(group) == Asked(s, seen + [r.key], now, file)
  {
    hide Asked;
    var file := r.info.fileID;
    var sofar := if file in groups then groups[file] else [];
    if file !in groups {
      AskedFile(s, seen, now, file);
    }
    AskedAppend(s, seen, now, r.key, file);
    assert KeysOf(sofar + [r]) == KeysOf(sofar) + [r.key];
  }

  lemma FilesAppend(s: S.Store, seen: seq<Key>, now: U32, key: Key)
    requires Readable(s, key, now)
    ensures FilesAsked(s, seen + [key], now) == FilesAsked(s, seen, now) + {s.index[key].fileID}
  {
    assert key in seen + [key];
    forall f | f in FilesAsked(s, seen, now) ensures f in FilesAsked(s, seen + [key], now) {
      var k :| k in seen && Readable(s, k, now) && s.index[k].fileID == f;
      assert k in seen + [key];
    }
  }

  lemma AskedFile(s: S.Store, seen: seq<Key>, now: U32, f: nat)
    ensures Asked(s, seen, now, f) != [] ==> f in FilesAsked(s, seen, now)
  {
    var ks := Asked(s, seen, now, f);
    if ks != [] {
      assert ks[0] in ks;
    }
  }

  // ---- the workers ----

  lemma {:induction false} ServeAllConcat(c: Codec, files: S.Files, index: S.Index, w: Worker, a: seq<Key>, b: seq<Key>)
    requires forall k :: k in a + b ==> k in index
    ensures forall k :: k in a ==> k in index
    ensures forall k :: k in b ==> k in index
    ensures ServeAll(c, files, index, w, a + b) == ServeAll(c, files, index, ServeAll(c, files, index, w, a), b)
  {
    hide Serve;
    assert forall k :: k in a || k in b ==> k in a + b;
    if b == [] {
      assert a + b == a;
    } else {
      assert (a + b)[..|a + b| - 1] == a + b[..|b| - 1];
      ServeAllConcat(c, files, index, w, a, b[..|b| - 1]);
    }
  }

  lemma {:induction false} ShiftSame(orders: map<nat, seq<Key>>, orders': map<nat, seq<Key>>, files: seq<nat>)
    requires forall f :: f in files ==> f in orders && f in orders' && orders[f] == orders'[f]
    ensures Shift(orders, files) == Shift(orders', files)
  {
    if files != [] {
      assert files[|files| - 1] in files;
      ShiftSame(orders, orders', files[..|files| - 1]);
    }
  }

  lemma SpreadAdd(shifts: seq<seq<nat>>, files: set<nat>, i: nat, f: nat)
    requires Spread(shifts, files) && f !in files && i < |shifts|
    ensures Spread(shifts[i := shifts[i] + [f]], files + {f})
  {
    var shifts' := shifts[i := shifts[i] + [f]];
    forall g | g in files + {f} ensures exists m :: 0 <= m < |shifts'| && g in shifts'[m] {
      if g == f {
        assert g in shifts'[i];
      } else {
        var m :| 0 <= m < |shifts| && g in shifts[m];
        assert g in shifts'[m];
      }
    }
  }

  /** Which files are done, by whom, and what the workers hold. */
  ghost predicate Serving(c: Codec, s: S.Store, keys: seq<Key>, now: U32, done: set<nat>, workers: seq<Worker>,
                          p: Schedule) {
    && p.orders.Keys == done && Spread(p.shifts, done) && |workers| == |p.shifts|
    && (forall f :: f in p.orders ==> Sorted(s, keys, now, f, p.orders[f]))
    && (forall i :: 0 <= i < |workers| ==> Works(c, s, p, i, workers[i]))
  }

  ghost predicate Works(c: Codec, s: S.Store, p: Schedule, i: nat, w: Worker)
    requires i < |p.shifts|
  {
    Servable(s, p.orders, p.shifts[i]) && w == AtEnd(c, s, p.orders, p.shifts[i])
  }

  function TakeFile(p: Schedule, i: nat, file: nat, order: seq<Key>): Schedule
    requires i < |p.shifts|
  {
    Schedule(p.orders[file := order], p.shifts[i := p.shifts[i] + [file]])
  }

  lemma OthersWork(c: Codec, s: S.Store, p: Schedule, i: nat, file: nat, order: seq<Key>, m: nat, w: Worker)
    requires i < |p.shifts| && m < |p.shifts| && m != i && file !in p.orders && Works(c, s, p, m, w)
    ensures Works(c, s, TakeFile(p, i, file, order), m, w)
  {
    ShiftSame(p.orders, p.orders[file := order], p.shifts[m]);
  }

  lemma TakerWorks(c: Codec, s: S.Store, p: Schedule, i: nat, file: nat, order: seq<Key>, before: Worker, w: Worker)
    requires i < |p.shifts| && file !in p.orders && Works(c, s, p, i, before)
    requires (forall k :: k in order ==> k in s.index) && w == ServeAll(c, s.files, s.index, before, order)
    ensures Works(c, s, TakeFile(p, i, file, order), i, w)
  {
    hide ServeAll, Shift, Fresh;
    var shift := p.shifts[i];
    ShiftNext(p.orders, file, order, shift);
    assert forall k :: k in Shift(p.orders, shift) + order ==> k in s.index;
    ServeAllConcat(c, s.files, s.index, Fresh(), Shift(p.orders, shift), order);
  }

  lemma ShiftNext(orders: map<nat, seq<Key>>, file: nat, order: seq<Key>, shift: seq<nat>)
    requires file !in orders && forall f :: f in shift ==> f in orders
    ensures forall f :: f in shift + [file] ==> f in orders[file := order]
    ensures Shift(orders[file := order], shift + [file]) == Shift(orders, shift) + order
  {
    ShiftSame(orders, orders[file := order], shift);
    assert (shift + [file])[..|shift|] == shift;
  }

  lemma ServingNext(c: Codec, s: S.Store, keys: seq<Key>, now: U32, done: set<nat>, workers: seq<Worker>, p: Schedule,
                    i: nat, file: nat, order: seq<Key>, w: Worker)
    requires Serving(c, s, keys, now, done, workers, p) && i < |workers| && file !in done
    requires Sorted(s, keys, now, file, order) && w == ServeAll(c, s.files, s.index, workers[i], order)
    ensures Serving(c, s, keys, now, done + {file}, workers[i := w], TakeFile(p, i, file, order))
  {
    hide Spread, Works, Asked;
    SpreadAdd(p.shifts, done, i, file);
    var p', workers' := TakeFile(p, i, file, order), workers[i := w];
    forall m | 0 <= m < |workers'| ensures Works(c, s, p', m, workers'[m]) {
      if m == i {
        TakerWorks(c, s, p, i, file, order, workers[i], w);
      } else {
        OthersWork(c, s, p, i, file, order, m, workers[m]);
      }
    }
  }

  lemma NothingServed(c: Codec, s: S.Store, keys: seq<Key>, now: U32, n: nat)
    ensures Serving(c, s, keys, now, {}, seq(n, _ => Fresh()), Schedule(map[], seq(n, _ => [])))
  {
  }

  lemma {:induction false} BufferSize(c: Codec, s: S.Store, p: Schedule, i: nat, w: Worker)
    requires i < |p.shifts| && Works(c, s, p, i, w)
    ensures |w.buffer| == BUFFER_SIZE
  {
    ServedSizes(c, s.files, s.index, Fresh(), Shift(p.orders, p.shifts[i]));
  }

  /** Any worker takes any file that is left, until none is. */
  method ServeFiles(db: GojiDB, ghost keys: seq<Key>, now: U32, groups: map<nat, seq<Request>>, numWorkers: nat)
    returns (workers: seq<Worker>, ghost p: Schedule)
    requires Grouped(db.View(), keys, now, groups) && numWorkers > 0
    ensures Serving(db.env.codec, db.View(), keys, now, groups.Keys, workers, p) && |workers| == numWorkers
  {
    hide Serving, Asked, ServeAll, FromIndex, Works, FilesAsked;
    workers, p := seq(numWorkers, _ => Fresh()), Schedule(map[], seq(numWorkers, _ => []));
    NothingServed(db.env.codec, db.View(), keys, now, numWorkers);
    var tasks := groups.Keys;
    assert groups.Keys - tasks == {};
    while tasks != {}
      invariant tasks <= groups.Keys && |workers| == numWorkers
      invariant Serving(db.env.codec, db.View(), keys, now, groups.Keys - tasks, workers, p)
      decreases tasks
    {
      var file :| file in tasks;
      var i :| 0 <= i < numWorkers;
      ServingBuffer(db.env.codec, db.View(), keys, now, groups.Keys - tasks, workers, p, i);
      var w, order := ProcessFileTask(db, groups[file], workers[i]);
      ServingNext(db.env.codec, db.View(), keys, now, groups.Keys - tasks, workers, p, i, file, order, w);
      workers, p := workers[i := w], TakeFile(p, i, file, order);
      assert (groups.Keys - tasks) + {file} == groups.Keys - (tasks - {file});
      tasks := tasks - {file};
    }
    assert groups.Keys - tasks == groups.Keys;
  }

  lemma ServingBuffer(c: Codec, s: S.Store, keys: seq<Key>, now: U32, done: set<nat>, workers: seq<Worker>,
                      p: Schedule, i: nat)
    requires Serving(c, s, keys, now, done, workers, p) && i < |workers|
    ensures |p.shifts| == |workers| && |workers[i].buffer| == BUFFER_SIZE
  {
    BufferSize(c, s, p, i, workers[i]);
  }

  // ---- the answers ----

  lemma {:induction false} ResultKeys(c: Codec, files: S.Files, index: S.Index, ks: seq<Key>)
    requires forall k :: k in ks ==> k in index
    ensures forall k :: k in ServeAll(c, files, index, Fresh(), ks).results <==> k in ks
  {
    if ks != [] {
      var init, last := ks[..|ks| - 1], ks[|ks| - 1];
      assert ks == init + [last];
      ResultKeys(c, files, index, init);
    }
  }

  /** A worker's results are for the keys of its files. */
  lemma WorkerKeys(c: Codec, s: S.Store, keys: seq<Key>, now: U32, done: set<nat>, workers: seq<Worker>, p: Schedule,
                   i: nat)
    requires Serving(c, s, keys, now, done, workers, p) && i < |workers|
    ensures forall k ::
      k in workers[i].results <==> k in keys && Readable(s, k, now) && s.index[k].fileID in p.shifts[i]
  {
    hide Sorted, ServeAll;
    assert Works(c, s, p, i, workers[i]);
    ResultKeys(c, s.files, s.index, Shift(p.orders, p.shifts[i]));
    ShiftKeys(p.orders, p.shifts[i]);
    forall f | f in p.shifts[i]
      ensures forall k :: k in p.orders[f] <==> k in keys && Readable(s, k, now) && s.index[k].fileID == f
    {
      SortedKeys(s, keys, now, f, p.orders[f]);
    }
  }

  /** The answers of the first n workers are in. */
  ghost predicate Collected(s: S.Store, keys: seq<Key>, now: U32, workers: seq<Worker>, shifts: seq<seq<nat>>, n: nat,
                            answers: map<Key, Bytes>)
    requires n <= |workers| == |shifts|
  {
    && (forall k :: k in answers ==> k in keys)
    && (forall k :: k in keys && !Readable(s, k, now) ==> k in answers && answers[k] == [])
    && (forall k, i :: k in keys && Readable(s, k, now) && 0 <= i < n && s.index[k].fileID in shifts[i] ==>
         k in workers[i].results && k in answers && answers[k] == ValueOf(workers[i], workers[i].results[k]))
  }

  function ResultsOf(w: Worker): map<Key, Bytes> {
    map k | k in w.results :: ValueOf(w, w.results[k])
  }

  lemma NothingCollected(c: Codec, s: S.Store, keys: seq<Key>, now: U32, workers: seq<Worker>, p: Schedule,
                         results: map<Key, Bytes>)
    requires Serving(c, s, keys, now, FilesAsked(s, keys, now), workers, p) && Empties(s, keys, now, results)
    ensures |workers| == |p.shifts| && Collected(s, keys, now, workers, p.shifts, 0, results)
  {
  }

  lemma CollectNext(c: Codec, s: S.Store, keys: seq<Key>, now: U32, workers: seq<Worker>, p: Schedule, n: nat,
                    answers: map<Key, Bytes>)
    requires Serving(c, s, keys, now, FilesAsked(s, keys, now), workers, p) && n < |workers|
    requires Collected(s, keys, now, workers, p.shifts, n, answers)
    ensures Collected(s, keys, now, workers, p.shifts, n + 1, answers + ResultsOf(workers[n]))
  {
    hide ValueOf, Works, Sorted, FilesAsked, Readable;
    WorkerKeys(c, s, keys, now, p.orders.Keys, workers, p, n);
  }

  method Collect(db: GojiDB, ghost keys: seq<Key>, now: U32, workers: seq<Worker>, ghost p: Schedule,
                 results: map<Key, Bytes>)
    returns (answers: map<Key, Bytes>)
    requires Serving(db.env.codec, db.View(), keys, now, FilesAsked(db.View(), keys, now), workers, p)
    requires Empties(db.View(), keys, now, results)
    ensures Answers(db.env.codec, db.View(), keys, now, p, answers)
  {
    hide Serving, Collected, Empties, ValueOf, AtEnd, Servable, Sorted, FilesAsked, Readable;
    answers := results;
    NothingCollected(db.env.codec, db.View(), keys, now, workers, p, results);
    var i := 0;
    while i < |workers|
      invariant 0 <= i <= |workers| == |p.shifts|
      invariant Collected(db.View(), keys, now, workers, p.shifts, i, answers)
    {
      CollectNext(db.env.codec, db.View(), keys, now, workers, p, i, answers);
      answers := answers + ResultsOf(workers[i]);
      i := i + 1;
    }
    AllCollected(db.env.codec, db.View(), keys, now, workers, p, answers);
  }

  lemma AllCollected(c: Codec, s: S.Store, keys: seq<Key>, now: U32, workers: seq<Worker>, p: Schedule,
                     answers: map<Key, Bytes>)
    requires Serving(c, s, keys, now, FilesAsked(s, keys, now), workers, p)
    requires Collected(s, keys, now, workers, p.shifts, |workers|, answers)
    ensures Answers(c, s, keys, now, p, answers)
  {
    hide ValueOf, AtEnd, Sorted, Readable;
    forall k | k in keys ensures k in answers {
      if Readable(s, k, now) {
        assert s.index[k].fileID in FilesAsked(s, keys, now) by {
          ReadableFile(s, keys, now, k);
        }
        var i :| 0 <= i < |p.shifts| && s.index[k].fileID in p.shifts[i];
      }
    }
    forall i | 0 <= i < |workers|
      ensures Servable(s, p.orders, p.shifts[i]) && workers[i] == AtEnd(c, s, p.orders, p.shifts[i])
    {
      assert Works(c, s, p, i, workers[i]);
    }
  }

  lemma ReadableFile(s: S.Store, keys: seq<Key>, now: U32, k: Key)
    requires k in keys && Readable(s, k, now)
    ensures k in s.index && s.index[k].fileID in FilesAsked(s, keys, now)
  {
  }

  /** BatchGet runs some schedule and gives its answers. They are what Get would return at the same
      instant, or empty where Get has nothing, for every key asked for and no other, whatever
      duplicates the list has, if the requests are undisturbed, and by `BatchGetIff` only then in
      every schedule. */
  method BatchGet(db: GojiDB, keys: seq<Key>, now: nat, cpus: nat) returns (answers: map<Key, Bytes>, ghost p: Schedule)
    ensures Possible(db.View(), keys, Unix(now), cpus, p)
    ensures Answers(db.env.codec, db.View(), keys, Unix(now), p, answers)
    ensures forall k :: k in answers <==> k in keys
    ensures |p.shifts| == if |p.orders| == 0 || cpus == 0 then 1 else if |p.orders| < cpus then |p.orders| else cpus
    ensures Undisturbed(db.View(), keys, Unix(now)) ==> AllRight(db.env.codec, db.View(), keys, Unix(now), answers)
  {
    hide Undisturbed, AllRight, AtEnd, Servable, Sorted, FilesAsked, Readable, Works, Spread;
    var groups, results := GroupRequests(db, keys, Unix(now));
    var numWorkers := if |groups| < cpus then |groups| else cpus;
    if numWorkers == 0 {
      numWorkers := 1;
    }
    var workers;
    workers, p := ServeFiles(db, keys, Unix(now), groups, numWorkers);
    answers := Collect(db, keys, Unix(now), workers, p, results);
    assert |groups| == |groups.Keys| && |p.orders| == |p.orders.Keys|;
    if Undisturbed(db.View(), keys, Unix(now)) {
      EveryAnswer(db.env.codec, db.View(), keys, Unix(now), cpus, p, answers);
    }
  }
}
