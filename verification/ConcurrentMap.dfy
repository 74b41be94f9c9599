/** The sharded index of concurrent.go: keys spread over shards by a hash, behaving as one map. */
module ConcurrentMap {
  import opened Bytes

  type Key = Bytes
  type Shards<V> = seq<map<Key, V>>

  /** Which shard a key belongs to. */
  function ShardOf(hash: Key -> nat, count: nat, k: Key): (i: nat)
    requires count > 0
    ensures i < count
  {
    hash(k) % count
  }

  predicate Placed<V>(ss: Shards<V>, at: Key -> nat) {
    forall i, k :: 0 <= i < |ss| && k in ss[i] ==> at(k) == i
  }

  /** All shards as one map. */
  function Merge<V>(ss: Shards<V>): map<Key, V> {
    if ss == [] then map[] else Merge(ss[..|ss| - 1]) + ss[|ss| - 1]
  }

  function TotalSize<V>(ss: Shards<V>): nat {
    if ss == [] then 0 else TotalSize(ss[..|ss| - 1]) + |ss[|ss| - 1]|
  }

  /** A key is in the merged map exactly when it is in its own shard, with the value it has there. */
  lemma {:induction false} MergeAt<V>(ss: Shards<V>, at: Key -> nat, k: Key)
    requires Placed(ss, at)
    ensures k in Merge(ss) <==> at(k) < |ss| && k in ss[at(k)]
    ensures k in Merge(ss) ==> Merge(ss)[k] == ss[at(k)][k]
  {
    if ss != [] {
      MergeAt(ss[..|ss| - 1], at, k);
    }
  }

  /** The sizes of the shards add up to the size of the map. */
  lemma {:induction false} SizesAddUp<V>(ss: Shards<V>, at: Key -> nat)
    requires Placed(ss, at)
    ensures TotalSize(ss) == |Merge(ss)|
  {
    if ss != [] {
      var init, last := ss[..|ss| - 1], ss[|ss| - 1];
      SizesAddUp(init, at);
      forall k | k in last ensures k !in Merge(init) {
        MergeAt(init, at, k);
      }
      assert Merge(ss).Keys == Merge(init).Keys + last.Keys;
      assert |Merge(ss).Keys| == |Merge(init).Keys| + |last.Keys|;
    }
  }

  /** Changing a key in its own shard changes the map at that key alone. */
  lemma MergeUpdate<V>(ss: Shards<V>, at: Key -> nat, k: Key, m: map<Key, V>)
    requires Placed(ss, at) && at(k) < |ss|
    requires forall j :: j != k ==> (j in m <==> j in ss[at(k)]) && (j in m ==> m[j] == ss[at(k)][j])
    ensures Placed(ss[at(k) := m], at)
    ensures k in m ==> Merge(ss[at(k) := m]) == Merge(ss)[k := m[k]]
    ensures k !in m ==> Merge(ss[at(k) := m]) == Merge(ss) - {k}
  {
    var ss' := ss[at(k) := m];
    forall i, j | 0 <= i < |ss'| && j in ss'[i] ensures at(j) == i {
      if i == at(k) && j != k {
        assert j in ss[at(k)];
      }
    }
    forall j: Key
      ensures j != k ==> (j in Merge(ss') <==> j in Merge(ss)) && (j in Merge(ss') ==> Merge(ss')[j] == Merge(ss)[j])
      ensures k in Merge(ss') <==> k in m
      ensures k in m ==> Merge(ss')[k] == m[k]
    {
      MergeAt(ss, at, j);
      MergeAt(ss', at, j);
      MergeAt(ss', at, k);
    }
  }

  class ConcurrentMap<V> {
    const hash: Key -> nat
    const shards: array<map<Key, V>>

    ghost predicate Valid()
      reads this, shards
    {
      shards.Length > 0 && Placed(shards[..], At())
    }

    function At(): Key -> nat
      reads this
    {
      (k: Key) => if shards.Length > 0 then ShardOf(hash, shards.Length, k) else 0
    }

    /** The one map the shards stand for. */
    ghost function View(): map<Key, V>
      reads this, shards
    {
      Merge(shards[..])
    }

    constructor (shardCount: int, hash: Key -> nat)
      ensures Valid() && fresh(shards) && View() == map[] && this.hash == hash
      ensures shards.Length == if shardCount <= 0 then 16 else shardCount
    {
      var n := if shardCount <= 0 then 16 else shardCount;
      this.hash := hash;
      this.shards := new map<Key, V>[n](_ => map[]);
      new;
      forall k: Key ensures k !in View() {
        MergeAt(shards[..], At(), k);
      }
    }

    method Get(key: Key) returns (value: Option<V>)
      requires Valid()
      ensures value == if key in View() then Some(View()[key]) else None
    {
      MergeAt(shards[..], At(), key);
      var i := ShardOf(hash, shards.Length, key);
      if key in shards[i] {
        return Some(shards[i][key]);
      }
      return None;
    }

    method Set(key: Key, value: V)
      requires Valid()
      modifies shards
      ensures Valid() && View() == old(View())[key := value]
      ensures key in shards[hash(key) % shards.Length]
    {
      var i := ShardOf(hash, shards.Length, key);
      MergeUpdate(shards[..], At(), key, shards[i][key := value]);
      ghost var before := shards[..];
      shards[i] := shards[i][key := value];
      assert shards[..] == before[i := before[i][key := value]];
    }

    method Delete(key: Key)
      requires Valid()
      modifies shards
      ensures Valid() && View() == old(View()) - {key}
    {
      var i := ShardOf(hash, shards.Length, key);
      MergeUpdate(shards[..], At(), key, shards[i] - {key});
      ghost var before := shards[..];
      shards[i] := shards[i] - {key};
      assert shards[..] == before[i := before[i] - {key}];
    }

    method Size() returns (size: nat)
      requires Valid()
      ensures size == |View()|
    {
      size := 0;
      var i := 0;
      while i < shards.Length
        invariant 0 <= i <= shards.Length && size == TotalSize(shards[..i])
      {
        assert shards[..i + 1][..i] == shards[..i];
        size := size + |shards[i]|;
        i := i + 1;
      }
      assert shards[..shards.Length] == shards[..];
      SizesAddUp(shards[..], At());
    }

    /** Visit shard after shard, in any order within a shard, until f says stop. What was visited
        are entries of the map, no key twice; every entry, unless f stopped the visit; and it stops
        at once. */
    method Range(f: (Key, V) -> bool) returns (visited: seq<Key>)
      requires Valid()
      ensures forall k :: k in visited ==> k in View()
      ensures forall i, j :: 0 <= i < j < |visited| ==> visited[i] != visited[j]
      ensures forall i :: 0 <= i < |visited| - 1 ==> f(visited[i], View()[visited[i]])
      ensures (visited != [] ==> f(visited[|visited| - 1], View()[visited[|visited| - 1]])) ==>
        forall k :: k in View() ==> k in visited
    {
      hide VisitedSome, Merge, Placed;
      ghost var ss, at := shards[..], At();
      NothingVisited(ss, at, f);
      visited := [];
      var i := 0;
      while i < shards.Length
        invariant 0 <= i <= shards.Length
        invariant VisitedSome(ss, at, f, visited, i, {})
      {
        var left := shards[i].Keys;
        NextShard(ss, at, f, visited, i);
        while left != {}
          invariant left <= shards[i].Keys
          invariant VisitedSome(ss, at, f, visited, i + 1, left)
          decreases left
        {
          var key :| key in left;
          var go := f(key, shards[i][key]);
          VisitOne(ss, at, f, visited, i, left, key);
          visited, left := visited + [key], left - {key};
          if !go { return; }
        }
        i := i + 1;
      }
      AllVisited(ss, at, f, visited);
    }
  }

  /** Everything in the first n shards except `left` has been visited, and nothing else; f wanted
      to go on every time. */
  ghost predicate VisitedSome<V>(ss: Shards<V>, at: Key -> nat, f: (Key, V) -> bool, visited: seq<Key>, n: nat,
                                 left: set<Key>) {
    && Placed(ss, at) && n <= |ss|
    && (forall k :: k in visited <==> at(k) < n && k in ss[at(k)] && k !in left)
    && (forall i, j :: 0 <= i < j < |visited| ==> visited[i] != visited[j])
    && (forall k :: k in visited ==> k in Merge(ss) && f(k, Merge(ss)[k]))
  }

  lemma NextShard<V>(ss: Shards<V>, at: Key -> nat, f: (Key, V) -> bool, visited: seq<Key>, n: nat)
    requires n < |ss| && VisitedSome(ss, at, f, visited, n, {})
    ensures VisitedSome(ss, at, f, visited, n + 1, ss[n].Keys)
  {
  }

  lemma NothingVisited<V>(ss: Shards<V>, at: Key -> nat, f: (Key, V) -> bool)
    requires Placed(ss, at)
    ensures VisitedSome(ss, at, f, [], 0, {})
  {
  }

  /** One more key: the visit goes on in order, or stops with only entries visited, no key twice. */
  lemma VisitOne<V>(ss: Shards<V>, at: Key -> nat, f: (Key, V) -> bool, visited: seq<Key>, i: nat, left: set<Key>,
                    key: Key)
    requires i < |ss| && left <= ss[i].Keys && key in left
    requires VisitedSome(ss, at, f, visited, i + 1, left)
    ensures key in Merge(ss) && Merge(ss)[key] == ss[i][key]
    ensures Visited(ss, visited + [key])
    ensures forall j :: 0 <= j < |visited| ==> visited[j] in Merge(ss) && f(visited[j], Merge(ss)[visited[j]])
    ensures f(key, ss[i][key]) ==> VisitedSome(ss, at, f, visited + [key], i + 1, left - {key})
  {
    hide Merge;
    MergeAt(ss, at, key);
  }

  /** Only entries, and no key twice. */
  ghost predicate Visited<V>(ss: Shards<V>, visited: seq<Key>) {
    && (forall k :: k in visited ==> k in Merge(ss))
    && (forall i, j :: 0 <= i < j < |visited| ==> visited[i] != visited[j])
  }

  lemma AllVisited<V>(ss: Shards<V>, at: Key -> nat, f: (Key, V) -> bool, visited: seq<Key>)
    requires VisitedSome(ss, at, f, visited, |ss|, {})
    ensures Visited(ss, visited) && forall k :: k in Merge(ss) ==> k in visited
    ensures forall k :: k in visited ==> f(k, Merge(ss)[k])
  {
    forall k | k in Merge(ss) ensures k in visited {
      MergeAt(ss, at, k);
    }
  }
}
