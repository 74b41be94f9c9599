/** A crash that cuts the active file at any byte: how much of what was written since it was opened
    a restart finds. */
module TornWrites {
  import opened Bytes
  import opened Codec
  import opened Entry
  import S = Store
  import opened Simulation
  import opened StoreSteps
  import opened StoreRuns
  import opened StoreTheorems

  /** The appends that operations are made of: Put and each item of BatchPut write, Delete and expiry
      bury; a rotation before them opens the file they go to. */
  datatype Write = Value(key: Key, value: Bytes, ts: U32, deadline: U32) | Burial(key: Key, ts: U32)

  predicate Allowed(env: S.Env, s: State, w: Write, clock: U32) {
    clock <= w.ts && match w
      case Value(key, value, _, _) => ItemOk(env, key, value)
      case Burial(key, _) => key in s.index
  }

  function EntryOf(env: S.Env, w: Write): Entry {
    match w
    case Value(key, value, ts, deadline) => S.PutEntry(env, key, value, ts, deadline)
    case Burial(key, ts) => S.TombstoneEntry(env, key, ts)
  }

  function Do(env: S.Env, s: State, w: Write): State
    requires w.Burial? ==> w.key in s.index
  {
    match w
    case Value(key, _, _, _) => S.WriteEntry(s, key, EntryOf(env, w))
    case Burial(key, ts) => S.Bury(env, s, key, ts)
  }

  /** They are what the operations append, after their rotation. */
  lemma OperationsAppend(env: S.Env, s: State, key: Key, value: Bytes, ts: U32, deadline: U32)
    requires key != []
    ensures S.Put(env, s, key, value, ts, deadline)
         == Do(env, S.RotateFor(env, s, Size(S.PutEntry(env, key, value, ts, deadline))),
             Value(key, value, ts, deadline))
    ensures S.BatchItem(env, s, S.Item(key, value, ts)) == Do(env, s, Value(key, value, ts, 0))
    ensures key in s.index ==> S.Delete(env, s, key, ts) == Do(env, s, Burial(key, ts))
    ensures key in s.index && !s.index[key].deleted ==> S.Expire(env, s, key, ts) == Do(env, s, Burial(key, ts))
  {
  }

  function Means(live: Live, w: Write): Live {
    match w
    case Value(key, value, _, deadline) => live[key := Meaning(value, deadline, deadline)]
    case Burial(key, _) => live - {key}
  }

  predicate AllAllowed(env: S.Env, s: State, ws: seq<Write>, clock: U32)
    decreases |ws|
  {
    ws == [] || (Allowed(env, s, ws[0], clock) && AllAllowed(env, Do(env, s, ws[0]), ws[1..], ws[0].ts))
  }

  function DoAll(env: S.Env, s: State, ws: seq<Write>, clock: U32): State
    requires AllAllowed(env, s, ws, clock)
    decreases |ws|
  {
    if ws == [] then s else DoAll(env, Do(env, s, ws[0]), ws[1..], ws[0].ts)
  }

  function MeansAll(live: Live, ws: seq<Write>): Live
    decreases |ws|
  {
    if ws == [] then live else MeansAll(Means(live, ws[0]), ws[1..])
  }

  lemma DoHolds(env: S.Env, s: State, live: Live, clock: U32, w: Write)
    requires EnvOk(env) && StateHolds(env, s, live, clock) && Allowed(env, s, w, clock)
    ensures StateHolds(env, Do(env, s, w), Means(live, w), w.ts)
  {
    TimestampBound(env, s, live, clock, w.key);
    match w
    case Value(key, value, ts, deadline) => WriteHolds(env, s, live, clock, key, value, ts, deadline, ts);
    case Burial(key, ts) => BuryHolds(env, s, live, clock, key, ts, ts);
  }

  /** Each write lengthens the active file by its entry and touches no other. */
  lemma DoAppends(env: S.Env, s: State, w: Write)
    requires w.Burial? ==> w.key in s.index
    ensures var s' := Do(env, s, w);
      && s'.active == s.active
      && s'.files == s.files[s.active := S.Contents(s.files, s.active) + Serialize(EntryOf(env, w))]
  {
  }

  lemma {:induction false} DoAllAppends(env: S.Env, s: State, ws: seq<Write>, clock: U32)
    requires AllAllowed(env, s, ws, clock) && s.active in s.files
    ensures var s' := DoAll(env, s, ws, clock);
      && s'.active == s.active && s.active in s'.files
      && s.files[s.active] <= s'.files[s.active] && s'.files == s.files[s.active := s'.files[s.active]]
    decreases |ws|
  {
    hide Do, EntryOf;
    if ws == [] {
      assert s.files[s.active := s.files[s.active]] == s.files;
    } else {
      DoAppends(env, s, ws[0]);
      DoAllAppends(env, Do(env, s, ws[0]), ws[1..], ws[0].ts);
    }
  }

  /** How many writes lie wholly below byte n, for a file that is `from` bytes long before them. */
  function WholeBelow(env: S.Env, ws: seq<Write>, from: nat, n: nat): (m: nat)
    ensures m <= |ws|
    decreases |ws|
  {
    if ws == [] || n < from + Size(EntryOf(env, ws[0])) then 0
    else 1 + WholeBelow(env, ws[1..], from + Size(EntryOf(env, ws[0])), n)
  }

  /** The files when the active one is cut to n bytes. */
  function CutFiles(s: State, n: nat): S.Files
    requires s.active in s.files && n <= |s.files[s.active]|
  {
    s.files[s.active := s.files[s.active][..n]]
  }

  /** From any reachable state on, make any number of writes and cut the active file anywhere behind
      what it held before them: the database opens as the plain map after exactly those writes whose
      entries lie wholly below the cut. */
  lemma {:induction false} CutServes(env: S.Env, s: State, live: Live, clock: U32, ws: seq<Write>, n: nat,
                                     snaps: map<nat, S.Files>)
    requires EnvOk(env) && StateHolds(env, s, live, clock) && AllAllowed(env, s, ws, clock) && s.active in s.files
    requires var s' := DoAll(env, s, ws, clock);
      s'.active in s'.files && |s.files[s.active]| <= n <= |s'.files[s'.active]|
    ensures var m := WholeBelow(env, ws, |s.files[s.active]|, n);
      Serves(env, S.Load(env.codec, CutFiles(DoAll(env, s, ws, clock), n), snaps), Durable(MeansAll(live, ws[..m])))
    decreases |ws|
  {
    hide Serves, S.Load, StateHolds, Do, EntryOf, Serialize, Durable;
    DoAllAppends(env, s, ws, clock);
    if ws == [] {
      Uncut(env, s, live, clock, n, snaps);
      assert ws[..0] == [];
    } else {
      var size := Size(EntryOf(env, ws[0]));
      DoAppends(env, s, ws[0]);
      var s1 := Do(env, s, ws[0]);
      DoAllAppends(env, s1, ws[1..], ws[0].ts);
      if n < |s.files[s.active]| + size {
        CutFirst(env, s, live, clock, s1, DoAll(env, s, ws, clock), EntryOf(env, ws[0]), n, snaps);
        assert ws[..0] == [];
      } else {
        var m := WholeBelow(env, ws[1..], |s.files[s.active]| + size, n);
        DoHolds(env, s, live, clock, ws[0]);
        CutServes(env, s1, Means(live, ws[0]), ws[0].ts, ws[1..], n, snaps);
        assert ws[..m + 1][1..] == ws[1..][..m];
      }
    }
  }

  lemma Uncut(env: S.Env, s: State, live: Live, clock: U32, n: nat, snaps: map<nat, S.Files>)
    requires StateHolds(env, s, live, clock) && s.active in s.files && n == |s.files[s.active]|
    ensures Serves(env, S.Load(env.codec, CutFiles(s, n), snaps), Durable(live))
  {
    var e := S.TombstoneEntry(env, [], 0);
    TornServes(env, s, live, clock, false, e, 0, snaps);
    hide Serialize, Serves, S.Load, S.TombstoneEntry;
    assert TornFiles(s, false, e, 0) == CutFiles(s, n) by {
      assert s.files[s.active] + Fit(Serialize(e), 0) == s.files[s.active][..n];
    }
  }

  lemma CutFirst(env: S.Env, s: State, live: Live, clock: U32, s1: State, s2: State, e: Entry, n: nat,
                 snaps: map<nat, S.Files>)
    requires StateHolds(env, s, live, clock) && s.active in s.files
    requires s1.active == s2.active == s.active && s.active in s1.files && s.active in s2.files
    requires s1.files[s.active] == s.files[s.active] + Serialize(e) && s1.files[s.active] <= s2.files[s.active]
    requires s2.files == s.files[s.active := s2.files[s.active]]
    requires |s.files[s.active]| <= n < |s.files[s.active]| + Size(e)
    ensures Serves(env, S.Load(env.codec, CutFiles(s2, n), snaps), Durable(live))
  {
    var b := s.files[s.active];
    TornServes(env, s, live, clock, false, e, n - |b|, snaps);
    hide Serialize, Serves, S.Load;
    assert s2.files[s.active][..n] == (b + Serialize(e))[..n] == b + Serialize(e)[..n - |b|];
    assert TornFiles(s, false, e, n - |b|) == CutFiles(s2, n);
  }
}
