/** How long a value put with an expiry can be read, in clock readings and seconds written out. */
module Expiry {
  import opened Bytes
  import opened Codec
  import S = Store
  import opened Simulation
  import opened StoreSteps
  import opened StoreRuns
  import Database

  function Seconds(nanos: int): int {
    nanos / 1_000_000_000
  }

  /** Clock readings that 32 bits of seconds can hold, after the first second. */
  predicate Representable(nanos: int) {
    1_000_000_000 <= nanos < 0x1_0000_0000 * 1_000_000_000
  }

  lemma UnixIs(nanos: nat)
    requires Representable(nanos)
    ensures 0 < Seconds(nanos) < 0x1_0000_0000 && Database.Unix(nanos) == Seconds(nanos)
  {
  }

  lemma PutReads(env: S.Env, s: State, live: Live, clock: U32, key: Key, value: Bytes, ts: U32, deadline: U32, t: U32)
    requires EnvOk(env) && StateHolds(env, s, live, clock) && key != [] && ItemOk(env, key, value) && clock <= ts
    ensures S.Get(env.codec, S.Put(env, s, key, value, ts, deadline), key, t)
         == if deadline > 0 && t >= deadline then None else Some(value)
  {
    hide S.Get, S.Put, Holds;
    PutHolds(env, s, live, clock, key, value, ts, deadline);
    var after := live[key := Meaning(value, deadline, deadline)];
    GetFromMeaning(env, S.Put(env, s, key, value, ts, deadline), after, ts, key, t);
  }

  /** Put with a positive expiry: the value reads exactly until the second in which it ends. `now` is the
      clock when the entry is stamped, `later` when its expiry is computed, `t` when it is read. */
  lemma ReadsUntil(env: S.Env, s: State, live: Live, clock: U32, key: Key, value: Bytes, ttl: int, now: nat,
                   later: nat, t: nat)
    requires EnvOk(env) && StateHolds(env, s, live, clock) && key != [] && ItemOk(env, key, value)
    requires Representable(now) && Representable(later) && Representable(t) && clock <= Seconds(now)
    requires ttl > 0 && Representable(later + ttl)
    ensures var s' := S.Put(env, s, key, value, Database.Unix(now), Database.Deadline(ttl, later));
      S.Get(env.codec, s', key, Database.Unix(t)) == if Seconds(t) < Seconds(later + ttl) then Some(value) else None
  {
    hide S.Get, S.Put, StateHolds, Seconds;
    UnixIs(now);
    UnixIs(t);
    UnixIs(later + ttl);
    PutReads(env, s, live, clock, key, value, Database.Unix(now), Database.Deadline(ttl, later), Database.Unix(t));
  }

  /** Without expiry it reads for ever; with a negative one, not from the present second on. */
  lemma ReadsForEver(env: S.Env, s: State, live: Live, clock: U32, key: Key, value: Bytes, now: nat, later: nat, t: nat)
    requires EnvOk(env) && StateHolds(env, s, live, clock) && key != [] && ItemOk(env, key, value)
    requires Representable(now) && Representable(later) && Representable(t) && clock <= Seconds(now)
    ensures var s' := S.Put(env, s, key, value, Database.Unix(now), Database.Deadline(0, later));
      S.Get(env.codec, s', key, Database.Unix(t)) == Some(value)
    ensures forall ttl :: ttl < 0 ==>
      var s' := S.Put(env, s, key, value, Database.Unix(now), Database.Deadline(ttl, later));
      S.Get(env.codec, s', key, Database.Unix(t)) == if Seconds(t) < Seconds(later) then Some(value) else None
  {
    hide S.Get, S.Put, StateHolds, Seconds;
    UnixIs(now);
    UnixIs(later);
    UnixIs(t);
    PutReads(env, s, live, clock, key, value, Database.Unix(now), 0, Database.Unix(t));
    PutReads(env, s, live, clock, key, value, Database.Unix(now), Database.Unix(later), Database.Unix(t));
  }

  /** SetTTL on a readable key: from then on it reads exactly until the new end, or for ever. */
  lemma SetTTLReads(env: S.Env, s: State, live: Live, clock: U32, key: Key, ttl: int, now: nat, t: nat)
    requires EnvOk(env) && StateHolds(env, s, live, clock) && key != [] && key in live
    requires Representable(now) && Representable(t) && (ttl > 0 ==> Representable(now + ttl))
    ensures var s' := S.SetTTL(s, key, if ttl > 0 then Database.Unix(now + ttl) else 0);
      S.Get(env.codec, s', key, Database.Unix(t))
      == if ttl <= 0 || Seconds(t) < Seconds(now + ttl) then Some(live[key].value) else None
  {
    hide S.Get, S.SetTTL, Holds, Seconds;
    UnixIs(t);
    var deadline := if ttl > 0 then Database.Unix(now + ttl) else 0;
    if ttl > 0 {
      UnixIs(now + ttl);
    }
    SetTTLHolds(env, s, live, clock, key, deadline);
    var after := live[key := live[key].(ttl := deadline)];
    GetFromMeaning(env, S.SetTTL(s, key, deadline), after, clock, key, Database.Unix(t));
  }
}
