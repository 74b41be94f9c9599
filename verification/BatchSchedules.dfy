/** A whole BatchGet of db.go: requests grouped by file, each file's requests in order of offset, the
    files spread over workers in any way. When is every answer right, whatever the schedule? */
module BatchSchedules {
  import opened Bytes
  import opened Codec
  import S = Store
  import opened BatchRead

  // ---- what is asked ----

  predicate Readable(s: S.Store, k: Key, now: U32) {
    k != [] && k in s.index && !s.index[k].deleted && !S.Expired(s.index[k].ttl, now)
  }

  /** The requests for one file, in the order of the key list, duplicates included. */
  function Asked(s: S.Store, keys: seq<Key>, now: U32, f: nat): (ks: seq<Key>)
    ensures forall k :: k in ks <==> k in keys && Readable(s, k, now) && s.index[k].fileID == f
  {
    if keys == [] then []
    else
      var init, last := keys[..|keys| - 1], keys[|keys| - 1];
      assert keys == init + [last];
      Asked(s, init, now, f) + if Readable(s, last, now) && s.index[last].fileID == f then [last] else []
  }

  function FilesAsked(s: S.Store, keys: seq<Key>, now: U32): set<nat> {
    set k | k in keys && Readable(s, k, now) :: s.index[k].fileID
  }

  /** What Get would return at the same instant, or empty. */
  function Expected(c: Codec, s: S.Store, k: Key, now: U32): Bytes {
    match S.Get(c, s, k, now) case Some(v) => v case None => []
  }

  // ---- schedules ----

  predicate ByOffset(index: S.Index, ks: seq<Key>) {
    && (forall k :: k in ks ==> k in index)
    && (forall i, j :: 0 <= i < j < |ks| ==> index[ks[i]].valuePos <= index[ks[j]].valuePos)
  }

  /** Each file's requests as they are sorted, and each worker's files as it takes them. */
  datatype Schedule = Schedule(orders: map<nat, seq<Key>>, shifts: seq<seq<nat>>)

  function Workers(files: nat, cpus: nat): nat {
    var n := if files < cpus then files else cpus;
    if n == 0 then 1 else n
  }

  /** Every file is taken once, by one worker. */
  ghost predicate Spread(shifts: seq<seq<nat>>, files: set<nat>) {
    && (forall i, f :: 0 <= i < |shifts| && f in shifts[i] ==> f in files)
    && (forall f :: f in files ==> exists i :: 0 <= i < |shifts| && f in shifts[i])
    && (forall i, j, f :: 0 <= i < j < |shifts| && f in shifts[i] ==> f !in shifts[j])
    && (forall i, a, b :: 0 <= i < |shifts| && 0 <= a < b < |shifts[i]| ==> shifts[i][a] != shifts[i][b])
  }

  ghost predicate Possible(s: S.Store, keys: seq<Key>, now: U32, cpus: nat, p: Schedule) {
    && p.orders.Keys == FilesAsked(s, keys, now)
    && (forall f :: f in p.orders ==> Sorted(s, keys, now, f, p.orders[f]))
    && |p.shifts| == Workers(|FilesAsked(s, keys, now)|, cpus)
    && Spread(p.shifts, FilesAsked(s, keys, now))
  }

  /** The sort is not stable: requests at the same offset come in any order. */
  predicate Sorted(s: S.Store, keys: seq<Key>, now: U32, f: nat, ks: seq<Key>) {
    multiset(ks) == multiset(Asked(s, keys, now, f)) && ByOffset(s.index, ks)
  }

  /** All requests one worker serves. */
  function Shift(orders: map<nat, seq<Key>>, files: seq<nat>): seq<Key>
    requires forall f :: f in files ==> f in orders
  {
    if files == [] then []
    else
      assert files[|files| - 1] in files;
      Shift(orders, files[..|files| - 1]) + orders[files[|files| - 1]]
  }

  function Fresh(): Worker {
    Worker(Zeros(BUFFER_SIZE), map[])
  }

  lemma {:induction false} ShiftKeys(orders: map<nat, seq<Key>>, files: seq<nat>)
    requires forall f :: f in files ==> f in orders
    ensures forall k :: k in Shift(orders, files) <==> exists f :: f in files && k in orders[f]
  {
    if files != [] {
      var init, last := files[..|files| - 1], files[|files| - 1];
      assert files == init + [last];
      ShiftKeys(orders, init);
    }
  }

  /** The worker when all is done. */
  function AtEnd(c: Codec, s: S.Store, orders: map<nat, seq<Key>>, files: seq<nat>): Worker
    requires (forall f :: f in files ==> f in orders) && forall k :: k in Shift(orders, files) ==> k in s.index
  {
    ServeAll(c, s.files, s.index, Fresh(), Shift(orders, files))
  }

  predicate Servable(s: S.Store, orders: map<nat, seq<Key>>, files: seq<nat>) {
    (forall f :: f in files ==> f in orders) && forall k :: k in Shift(orders, files) ==> k in s.index
  }

  /** The call's answers under a schedule: empty for a key without a value, otherwise the slice its
      worker stored, as it reads when all workers are done. */
  ghost predicate Answers(c: Codec, s: S.Store, keys: seq<Key>, now: U32, p: Schedule, answers: map<Key, Bytes>) {
    && (forall k :: k in answers <==> k in keys)
    && (forall k :: k in keys && !Readable(s, k, now) ==> answers[k] == [])
    && (forall k, i :: k in keys && Readable(s, k, now) && 0 <= i < |p.shifts| && s.index[k].fileID in p.shifts[i] ==>
         && Servable(s, p.orders, p.shifts[i])
         && var w := AtEnd(c, s, p.orders, p.shifts[i]);
            k in w.results && answers[k] == ValueOf(w, w.results[k]))
  }

  ghost predicate AllRight(c: Codec, s: S.Store, keys: seq<Key>, now: U32, answers: map<Key, Bytes>) {
    forall k :: k in keys ==> k in answers && answers[k] == Expected(c, s, k, now)
  }

  // ---- when no schedule can go wrong ----

  /** The key's bytes pass through byte p of a buffer. */
  predicate Reaches(s: S.Store, k: Key, p: nat) {
    k in s.index && p < |Raw(s.files, s.index[k])| <= BUFFER_SIZE
  }

  /** Of the requests for its file that reach byte p, none has a greater offset. */
  predicate MayComeLast(s: S.Store, keys: seq<Key>, now: U32, j: Key, p: nat) {
    && j in keys && Readable(s, j, now) && Reaches(s, j, p)
    && forall i :: i in keys && Readable(s, i, now) && s.index[i].fileID == s.index[j].fileID && Reaches(s, i, p) ==>
         s.index[i].valuePos <= s.index[j].valuePos
  }

  predicate LeavesAlone(s: S.Store, keys: seq<Key>, now: U32, k: Key, j: Key, p: nat) {
    && k in s.index && Borrows(s.files, s.index[k], BUFFER_SIZE) && p < |Raw(s.files, s.index[k])|
    && MayComeLast(s, keys, now, j, p)
    ==> Raw(s.files, s.index[j])[p] == Raw(s.files, s.index[k])[p]
  }

  /** Each byte of each slice handed out is also what every file may leave there last: its own file
      and all others. */
  ghost predicate Undisturbed(s: S.Store, keys: seq<Key>, now: U32) {
    forall k, j, p: nat :: k in keys && Readable(s, k, now) ==> LeavesAlone(s, keys, now, k, j, p)
  }

  lemma {:induction false} TopConcat(files: S.Files, index: S.Index, a: seq<Key>, b: seq<Key>, p: nat)
    requires forall k :: k in a + b ==> k in index
    ensures Top(files, index, a + b, BUFFER_SIZE, p)
         == if Top(files, index, b, BUFFER_SIZE, p).Some? then Top(files, index, b, BUFFER_SIZE, p)
            else Top(files, index, a, BUFFER_SIZE, p)
  {
    if b == [] {
      assert a + b == a;
    } else {
      assert (a + b)[..|a + b| - 1] == a + b[..|b| - 1];
      TopConcat(files, index, a, b[..|b| - 1], p);
    }
  }

  /** In order of offset, the byte comes from a request no other that reaches it is behind of. */
  lemma {:induction false} TopByOffset(s: S.Store, ks: seq<Key>, p: nat) returns (j: Key)
    requires ByOffset(s.index, ks) && Top(s.files, s.index, ks, BUFFER_SIZE, p).Some?
    ensures j in ks && Reaches(s, j, p)
    ensures Top(s.files, s.index, ks, BUFFER_SIZE, p) == Some(Raw(s.files, s.index[j])[p])
    ensures forall i :: i in ks && Reaches(s, i, p) ==> s.index[i].valuePos <= s.index[j].valuePos
  {
    var init, last := ks[..|ks| - 1], ks[|ks| - 1];
    assert ks == init + [last];
    if Reaches(s, last, p) {
      j := last;
    } else {
      j := TopByOffset(s, init, p);
    }
  }

  lemma {:induction false} TopOfShift(s: S.Store, orders: map<nat, seq<Key>>, files: seq<nat>, p: nat) returns (f: nat)
    requires Servable(s, orders, files) && Top(s.files, s.index, Shift(orders, files), BUFFER_SIZE, p).Some?
    ensures f in files && (forall k :: k in orders[f] ==> k in s.index)
    ensures Top(s.files, s.index, orders[f], BUFFER_SIZE, p)
        == Top(s.files, s.index, Shift(orders, files), BUFFER_SIZE, p)
  {
    var init, last := files[..|files| - 1], files[|files| - 1];
    assert files == init + [last];
    TopConcat(s.files, s.index, Shift(orders, init), orders[last], p);
    if Top(s.files, s.index, orders[last], BUFFER_SIZE, p).Some? {
      f := last;
    } else {
      f := TopOfShift(s, orders, init, p);
    }
  }

  lemma SortedKeys(s: S.Store, keys: seq<Key>, now: U32, f: nat, ks: seq<Key>)
    requires Sorted(s, keys, now, f, ks)
    ensures forall k :: k in ks <==> k in keys && Readable(s, k, now) && s.index[k].fileID == f
  {
    assert forall k :: k in ks <==> k in multiset(ks);
    assert forall k :: k in Asked(s, keys, now, f) <==> k in multiset(Asked(s, keys, now, f));
  }

  lemma UndisturbedSurvives(s: S.Store, keys: seq<Key>, now: U32, cpus: nat, p: Schedule, i: nat, k: Key)
    requires Undisturbed(s, keys, now) && Possible(s, keys, now, cpus, p) && i < |p.shifts|
    requires Servable(s, p.orders, p.shifts[i]) && k in Shift(p.orders, p.shifts[i])
    requires k in keys && Readable(s, k, now) && Borrows(s.files, s.index[k], BUFFER_SIZE)
    ensures Survives(s.files, s.index, Shift(p.orders, p.shifts[i]), BUFFER_SIZE, k)
  {
    var run := Shift(p.orders, p.shifts[i]);
    forall b: nat | b < |Raw(s.files, s.index[k])|
      ensures Top(s.files, s.index, run, BUFFER_SIZE, b) == Some(Raw(s.files, s.index[k])[b])
    {
      TopSome(s.files, s.index, run, BUFFER_SIZE, k, b);
      var f := TopOfShift(s, p.orders, p.shifts[i], b);
      var j := TopByOffset(s, p.orders[f], b);
      SortedKeys(s, keys, now, f, p.orders[f]);
      assert MayComeLast(s, keys, now, j, b);
      assert LeavesAlone(s, keys, now, k, j, b);
    }
  }

  /** Which worker serves a key. */
  lemma ServedBy(s: S.Store, keys: seq<Key>, now: U32, cpus: nat, p: Schedule, k: Key) returns (i: nat)
    requires Possible(s, keys, now, cpus, p) && k in keys && Readable(s, k, now)
    ensures i < |p.shifts| && s.index[k].fileID in p.shifts[i]
    ensures Servable(s, p.orders, p.shifts[i]) && k in Shift(p.orders, p.shifts[i])
  {
    var f := s.index[k].fileID;
    assert f in FilesAsked(s, keys, now);
    i :| 0 <= i < |p.shifts| && f in p.shifts[i];
    ShiftServable(s, keys, now, cpus, p, i);
    SortedKeys(s, keys, now, f, p.orders[f]);
    ShiftKeys(p.orders, p.shifts[i]);
  }

  lemma ShiftServable(s: S.Store, keys: seq<Key>, now: U32, cpus: nat, p: Schedule, i: nat)
    requires Possible(s, keys, now, cpus, p) && i < |p.shifts|
    ensures Servable(s, p.orders, p.shifts[i])
  {
    ShiftKeys(p.orders, p.shifts[i]);
    forall k | k in Shift(p.orders, p.shifts[i]) ensures k in s.index {
      var f :| f in p.shifts[i] && k in p.orders[f];
      SortedKeys(s, keys, now, f, p.orders[f]);
    }
  }

  lemma RightAnswer(c: Codec, s: S.Store, keys: seq<Key>, now: U32, cpus: nat, p: Schedule, answers: map<Key, Bytes>,
                    k: Key)
    requires Possible(s, keys, now, cpus, p) && Answers(c, s, keys, now, p, answers) && Undisturbed(s, keys, now)
    requires k in keys
    ensures answers[k] == Expected(c, s, k, now)
  {
    hide Possible, Undisturbed, Survives, ServeAll, Top;
    if Readable(s, k, now) {
      var i := ServedBy(s, keys, now, cpus, p, k);
      ServedRightIff(c, s.files, s.index, Fresh(), Shift(p.orders, p.shifts[i]), k);
      if Borrows(s.files, s.index[k], BUFFER_SIZE) {
        UndisturbedSurvives(s, keys, now, cpus, p, i, k);
      }
    }
  }

  // ---- a schedule that goes wrong ----

  /** Insertion behind equal offsets. */
  function Insert(index: S.Index, ks: seq<Key>, k: Key): (r: seq<Key>)
    requires k in index && forall x :: x in ks ==> x in index
    ensures multiset(r) == multiset(ks) + multiset{k}
    ensures forall x :: x in r ==> x in ks || x == k
  {
    if ks == [] then [k]
    else
      var init, last := ks[..|ks| - 1], ks[|ks| - 1];
      assert ks == init + [last];
      if index[last].valuePos <= index[k].valuePos then ks + [k] else Insert(index, init, k) + [last]
  }

  lemma {:induction false} InsertSorted(index: S.Index, ks: seq<Key>, k: Key)
    requires k in index && ByOffset(index, ks)
    ensures ByOffset(index, Insert(index, ks, k))
  {
    if ks != [] {
      var init, last := ks[..|ks| - 1], ks[|ks| - 1];
      assert ks == init + [last];
      assert forall x :: x in ks ==> index[x].valuePos <= index[last].valuePos;
      if index[last].valuePos > index[k].valuePos {
        InsertSorted(index, init, k);
        SortedAppend(index, Insert(index, init, k), last);
      } else {
        SortedAppend(index, ks, k);
      }
    }
  }

  lemma SortedAppend(index: S.Index, ks: seq<Key>, k: Key)
    requires k in index && ByOffset(index, ks) && forall x :: x in ks ==> index[x].valuePos <= index[k].valuePos
    ensures ByOffset(index, ks + [k])
  {
  }

  function SortedBy(index: S.Index, ks: seq<Key>): (r: seq<Key>)
    requires forall k :: k in ks ==> k in index
    ensures multiset(r) == multiset(ks)
    ensures forall x :: x in r ==> x in ks
  {
    if ks == [] then []
    else
      var init, last := ks[..|ks| - 1], ks[|ks| - 1];
      assert ks == init + [last];
      Insert(index, SortedBy(index, init), last)
  }

  lemma {:induction false} SortedByOffset(index: S.Index, ks: seq<Key>)
    requires forall k :: k in ks ==> k in index
    ensures ByOffset(index, SortedBy(index, ks))
  {
    if ks != [] {
      SortedByOffset(index, ks[..|ks| - 1]);
      InsertSorted(index, SortedBy(index, ks[..|ks| - 1]), ks[|ks| - 1]);
    }
  }

  /** Inserted last, j decides byte p if nothing behind its offset reaches p. */
  lemma {:induction false} InsertTop(s: S.Store, ks: seq<Key>, j: Key, p: nat)
    requires (forall x :: x in ks ==> x in s.index) && Reaches(s, j, p)
    requires forall i :: i in ks && Reaches(s, i, p) ==> s.index[i].valuePos <= s.index[j].valuePos
    ensures Top(s.files, s.index, Insert(s.index, ks, j), BUFFER_SIZE, p) == Some(Raw(s.files, s.index[j])[p])
  {
    if ks != [] {
      var init, last := ks[..|ks| - 1], ks[|ks| - 1];
      assert ks == init + [last];
      if s.index[last].valuePos > s.index[j].valuePos {
        InsertTop(s, init, j, p);
        assert (Insert(s.index, init, j) + [last])[..|Insert(s.index, init, j)|] == Insert(s.index, init, j);
      } else {
        assert (ks + [j])[..|ks|] == ks;
      }
    }
  }

  lemma WithoutOne(ks: seq<Key>, j: Key) returns (rest: seq<Key>)
    requires j in ks
    ensures multiset(rest) + multiset{j} == multiset(ks) && forall k :: k in rest ==> k in ks
  {
    var m :| 0 <= m < |ks| && ks[m] == j;
    rest := ks[..m] + ks[m + 1..];
    assert ks == ks[..m] + [j] + ks[m + 1..];
  }

  /** An order of a file's requests in which j has the last word on byte p. */
  lemma OrderWithLast(s: S.Store, keys: seq<Key>, now: U32, j: Key, p: nat) returns (ks: seq<Key>)
    requires MayComeLast(s, keys, now, j, p)
    ensures Sorted(s, keys, now, s.index[j].fileID, ks)
    ensures Top(s.files, s.index, ks, BUFFER_SIZE, p) == Some(Raw(s.files, s.index[j])[p])
  {
    hide Asked, Reaches;
    var all := Asked(s, keys, now, s.index[j].fileID);
    var rest := WithoutOne(all, j);
    var sorted := SortedBy(s.index, rest);
    SortedByOffset(s.index, rest);
    InsertSorted(s.index, sorted, j);
    InsertTop(s, sorted, j, p);
    ks := Insert(s.index, sorted, j);
  }

  /** One worker takes all files, the given one last. */
  lemma AllInOneShift(files: set<nat>, last: nat, n: nat) returns (shifts: seq<seq<nat>>)
    requires last in files && n > 0
    ensures |shifts| == n && Spread(shifts, files)
    ensures shifts[0] != [] && shifts[0][|shifts[0]| - 1] == last
    ensures forall i :: 0 < i < n ==> shifts[i] == []
  {
    var others := AnyOrder(files - {last});
    shifts := [others + [last]] + seq(n - 1, _ => []);
    assert forall f :: f in files ==> f in shifts[0];
  }

  lemma BadSchedule(s: S.Store, keys: seq<Key>, now: U32, cpus: nat, j: Key, p: nat) returns (bad: Schedule)
    requires MayComeLast(s, keys, now, j, p)
    ensures Possible(s, keys, now, cpus, bad) && |bad.shifts| > 0 && Servable(s, bad.orders, bad.shifts[0])
    ensures forall i :: 0 < i < |bad.shifts| ==> bad.shifts[i] == []
    ensures Top(s.files, s.index, Shift(bad.orders, bad.shifts[0]), BUFFER_SIZE, p) == Some(Raw(s.files, s.index[j])[p])
  {
    hide MayComeLast, Asked, Sorted, Readable, ByOffset;
    FileAsked(s, keys, now, j, p);
    var files, f := FilesAsked(s, keys, now), s.index[j].fileID;
    var ks := OrderWithLast(s, keys, now, j, p);
    var orders := Orders(s, keys, now, f, ks);
    var shifts := AllInOneShift(files, f, Workers(|files|, cpus));
    bad := Schedule(orders, shifts);
    ShiftServable(s, keys, now, cpus, bad, 0);
    TopConcat(s.files, s.index, Shift(orders, shifts[0][..|shifts[0]| - 1]), ks, p);
  }

  lemma FileAsked(s: S.Store, keys: seq<Key>, now: U32, j: Key, p: nat)
    requires MayComeLast(s, keys, now, j, p)
    ensures j in s.index && s.index[j].fileID in FilesAsked(s, keys, now)
  {
  }

  lemma Orders(s: S.Store, keys: seq<Key>, now: U32, f: nat, ks: seq<Key>) returns (orders: map<nat, seq<Key>>)
    requires Sorted(s, keys, now, f, ks)
    ensures orders.Keys == FilesAsked(s, keys, now) && forall g :: g in orders ==> Sorted(s, keys, now, g, orders[g])
    ensures f in orders ==> orders[f] == ks
  {
    hide SortedBy, Readable;
    orders := map g | g in FilesAsked(s, keys, now) :: if g == f then ks else SortedAsked(s, keys, now, g);
    forall g | g in orders ensures Sorted(s, keys, now, g, orders[g]) {
      if g != f {
        AskedReadable(s, keys, now, g);
        SortedByOffset(s.index, Asked(s, keys, now, g));
      }
    }
  }

  function SortedAsked(s: S.Store, keys: seq<Key>, now: U32, f: nat): seq<Key> {
    SortedBy(s.index, Asked(s, keys, now, f))
  }

  lemma AskedReadable(s: S.Store, keys: seq<Key>, now: U32, f: nat)
    ensures forall k :: k in Asked(s, keys, now, f) ==> k in s.index
  {
  }

  lemma WrongAnswer(c: Codec, s: S.Store, keys: seq<Key>, now: U32, cpus: nat, k: Key, j: Key, p: nat)
      returns (bad: Schedule, answers: map<Key, Bytes>)
    requires k in keys && Readable(s, k, now) && !LeavesAlone(s, keys, now, k, j, p)
    ensures Possible(s, keys, now, cpus, bad) && Answers(c, s, keys, now, bad, answers)
    ensures !AllRight(c, s, keys, now, answers)
  {
    hide ServeAll, Top, MayComeLast, Possible, Raw, S.Get, ValueOf, Shift, Borrows;
    bad := BadSchedule(s, keys, now, cpus, j, p);
    answers := OneWorker(c, s, keys, now, cpus, bad);
    OneShiftKey(s, keys, now, cpus, bad, k);
    ServedRightIff(c, s.files, s.index, Fresh(), Shift(bad.orders, bad.shifts[0]), k);
    assert !Survives(s.files, s.index, Shift(bad.orders, bad.shifts[0]), BUFFER_SIZE, k);
    ExpectedIsWanted(c, s, k, now);
  }

  lemma ExpectedIsWanted(c: Codec, s: S.Store, k: Key, now: U32)
    requires Readable(s, k, now)
    ensures Expected(c, s, k, now) == Wanted(c, s.files, s.index[k])
  {
  }

  lemma OneShiftKey(s: S.Store, keys: seq<Key>, now: U32, cpus: nat, p: Schedule, k: Key)
    requires Possible(s, keys, now, cpus, p) && k in keys && Readable(s, k, now)
    requires forall i :: 0 < i < |p.shifts| ==> p.shifts[i] == []
    ensures |p.shifts| > 0 && s.index[k].fileID in p.shifts[0]
    ensures Servable(s, p.orders, p.shifts[0]) && k in Shift(p.orders, p.shifts[0])
  {
    hide Possible, Servable, Shift;
    var i := ServedBy(s, keys, now, cpus, p, k);
  }

  /** The answers when one worker has served all. */
  lemma OneWorker(c: Codec, s: S.Store, keys: seq<Key>, now: U32, cpus: nat, p: Schedule)
      returns (answers: map<Key, Bytes>)
    requires Possible(s, keys, now, cpus, p) && forall i :: 0 < i < |p.shifts| ==> p.shifts[i] == []
    requires |p.shifts| > 0 && Servable(s, p.orders, p.shifts[0])
    ensures Answers(c, s, keys, now, p, answers)
    ensures forall k :: k in keys && Readable(s, k, now) ==>
      var w := AtEnd(c, s, p.orders, p.shifts[0]); k in w.results && answers[k] == ValueOf(w, w.results[k])
  {
    hide Possible, ServeAll, Shift, Readable, ValueOf;
    var w := AtEnd(c, s, p.orders, p.shifts[0]);
    forall k | k in keys && Readable(s, k, now) ensures k in w.results {
      OneShiftKey(s, keys, now, cpus, p, k);
      ServedSlots(c, s.files, s.index, Fresh(), Shift(p.orders, p.shifts[0]), k);
    }
    answers := map k | k in keys :: if Readable(s, k, now) then ValueOf(w, w.results[k]) else [];
  }

  /** BatchGet is pointwise Get in every schedule (sort ties, spread over workers, order within each
      worker) if and only if its requests are undisturbed. */
  lemma BatchGetIff(c: Codec, s: S.Store, keys: seq<Key>, now: U32, cpus: nat)
    ensures (forall p, answers :: Possible(s, keys, now, cpus, p) && Answers(c, s, keys, now, p, answers) ==>
              AllRight(c, s, keys, now, answers))
      <==> Undisturbed(s, keys, now)
  {
    hide Possible, Answers, Expected, LeavesAlone;
    if Undisturbed(s, keys, now) {
      forall p, answers | Possible(s, keys, now, cpus, p) && Answers(c, s, keys, now, p, answers)
        ensures AllRight(c, s, keys, now, answers)
      {
        EveryAnswer(c, s, keys, now, cpus, p, answers);
      }
    } else {
      var k, j, p: nat :| k in keys && Readable(s, k, now) && !LeavesAlone(s, keys, now, k, j, p);
      var bad, answers := WrongAnswer(c, s, keys, now, cpus, k, j, p);
    }
  }

  lemma EveryAnswer(c: Codec, s: S.Store, keys: seq<Key>, now: U32, cpus: nat, p: Schedule, answers: map<Key, Bytes>)
    requires Possible(s, keys, now, cpus, p) && Answers(c, s, keys, now, p, answers) && Undisturbed(s, keys, now)
    ensures AllRight(c, s, keys, now, answers)
  {
    hide Possible, Expected, Undisturbed;
    forall k | k in keys ensures k in answers && answers[k] == Expected(c, s, k, now) {
      RightAnswer(c, s, keys, now, cpus, p, answers, k);
    }
  }

  /** The smallest failing call: for two different uncompressed one-byte values, this schedule gives a
      wrong answer. */
  lemma UncompressedClash(c: Codec, s: S.Store, j: Key, k: Key, now: U32, cpus: nat)
      returns (bad: Schedule, answers: map<Key, Bytes>)
    requires Readable(s, j, now) && Readable(s, k, now)
    requires Borrows(s.files, s.index[j], BUFFER_SIZE) && Borrows(s.files, s.index[k], BUFFER_SIZE)
    requires |Raw(s.files, s.index[j])| == |Raw(s.files, s.index[k])| == 1
    requires Raw(s.files, s.index[j]) != Raw(s.files, s.index[k])
    ensures Possible(s, [j, k], now, cpus, bad) && Answers(c, s, [j, k], now, bad, answers)
    ensures !AllRight(c, s, [j, k], now, answers)
  {
    var keys := [j, k];
    assert j in keys && k in keys;
    if s.index[j].valuePos <= s.index[k].valuePos {
      assert MayComeLast(s, keys, now, k, 0);
      bad, answers := WrongAnswer(c, s, keys, now, cpus, j, k, 0);
    } else {
      assert MayComeLast(s, keys, now, j, 0);
      bad, answers := WrongAnswer(c, s, keys, now, cpus, k, j, 0);
    }
  }
}
