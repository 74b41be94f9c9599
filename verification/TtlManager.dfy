/** The TTL manager of ttl.go: a map from keys to expiry times kept in an expiry heap. */
module TtlManager {
  import opened Bytes
  import opened TtlHeap

  // ---- from items to keys ----

  ghost predicate UniqueKeys(items: set<ExpiryItem>) {
    forall x, y :: x in items && y in items && x.key == y.key ==> x == y
  }

  /** Expiry times by key, given them by item. */
  ghost function ByKey(times: map<ExpiryItem, int>): map<Key, int>
    requires UniqueKeys(times.Keys)
  {
    map x | x in times :: x.key := times[x]
  }

  lemma ByKeyHas(times: map<ExpiryItem, int>, x: ExpiryItem)
    requires UniqueKeys(times.Keys) && x in times
    ensures x.key in ByKey(times) && ByKey(times)[x.key] == times[x]
  {
  }

  lemma ByKeySet(times: map<ExpiryItem, int>, x: ExpiryItem, t: int)
    requires UniqueKeys(times.Keys) && (x in times || x.key !in ByKey(times))
    ensures UniqueKeys(times[x := t].Keys) && ByKey(times[x := t]) == ByKey(times)[x.key := t]
  {
    var after := times[x := t];
    assert after.Keys == times.Keys + {x};
    forall y, z | y in after && z in after && y.key == z.key ensures y == z {
      if x !in times {
        assert y in times ==> y.key in ByKey(times);
        assert z in times ==> z.key in ByKey(times);
      }
    }
    assert x in after;
    forall k ensures k in ByKey(after) <==> k in ByKey(times)[x.key := t] {
      if k in ByKey(times) {
        var y :| y in times && y.key == k;
        assert y in after;
      }
    }
  }

  lemma ByKeyRemove(times: map<ExpiryItem, int>, x: ExpiryItem)
    requires UniqueKeys(times.Keys) && x in times
    ensures UniqueKeys((times - {x}).Keys) && ByKey(times - {x}) == ByKey(times) - {x.key}
  {
    var after := times - {x};
    forall k ensures k in ByKey(after) <==> k in ByKey(times) - {x.key} {
      if k in ByKey(times) && k != x.key {
        var y :| y in times && y.key == k;
        assert y in after;
      }
    }
  }

  // ---- the manager ----

  class TTLManager {
    const heap: ExpiryHeap

    ghost predicate Valid()
      reads this, heap, heap.items
    {
      heap.Placed() && Heap(Times(heap.items), |heap.items|) && UniqueKeys(heap.Objects())
    }

    ghost function ItemTimes(): (t: map<ExpiryItem, int>)
      reads this, heap, heap.Objects()
      ensures t.Keys == heap.Objects()
    {
      map x | x in heap.Objects() :: x.expiresAt
    }

    /** The keys waiting to expire. */
    ghost function Waiting(): map<Key, int>
      requires UniqueKeys(heap.Objects())
      reads this, heap, heap.Objects()
    {
      ByKey(ItemTimes())
    }

    constructor ()
      ensures Valid() && fresh(heap) && Waiting() == map[]
    {
      heap := new ExpiryHeap();
    }

    /** The linear search both Add and Remove do. */
    method Find(key: Key) returns (i: nat)
      requires Valid()
      ensures i <= |heap.items|
      ensures i < |heap.items|
          ==> heap.items[i].key == key && heap.items[i].index == i && heap.items[i] in heap.Objects()
      ensures i < |heap.items| <==> key in Waiting()
    {
      i := 0;
      while i < |heap.items|
        invariant 0 <= i <= |heap.items|
        invariant forall j :: 0 <= j < i ==> heap.items[j].key != key
      {
        if heap.items[i].key == key {
          assert heap.items[i] in heap.Objects();
          ByKeyHas(ItemTimes(), heap.items[i]);
          return;
        }
        i := i + 1;
      }
    }

    /** Insert or update. */
    method Add(key: Key, expiresAt: int)
      requires Valid()
      modifies heap, heap.Objects()
      ensures Valid() && fresh(heap.Objects() - old(heap.Objects()))
      ensures Waiting() == old(Waiting())[key := expiresAt]
    {
      hide Heap, ByKey, UniqueKeys;
      var i := Find(key);
      if i < |heap.items| {
        Update(i, expiresAt);
      } else {
        Insert(key, expiresAt);
      }
    }

    method Update(i: nat, expiresAt: int)
      requires Valid() && i < |heap.items|
      modifies heap, heap.Objects()
      ensures Valid() && heap.Objects() == old(heap.Objects())
      ensures Waiting() == old(Waiting())[old(heap.items)[i].key := expiresAt]
    {
      hide Heap, HeapBut, ByKey, UniqueKeys;
      ghost var before, times, item := Times(heap.items), ItemTimes(), heap.items[i];
      assert item in heap.Objects();
      heap.items[i].expiresAt := expiresAt;
      assert ItemTimes() == times[item := expiresAt];
      ByKeySet(times, item, expiresAt);
      HeapButAfterChange(before, Times(heap.items), |heap.items|, |heap.items|, i);
      heap.Fix(i);
      assert ItemTimes() == times[item := expiresAt];
    }

    method Insert(key: Key, expiresAt: int)
      requires Valid() && key !in Waiting()
      modifies heap, heap.Objects()
      ensures Valid() && fresh(heap.Objects() - old(heap.Objects()))
      ensures Waiting() == old(Waiting())[key := expiresAt]
    {
      hide Heap, ByKey, UniqueKeys;
      var item := new ExpiryItem(key, expiresAt);
      ghost var times := ItemTimes();
      assert item !in old(heap.Objects());
      ByKeySet(times, item, expiresAt);
      heap.Push(item);
      assert ItemTimes() == times[item := expiresAt];
    }

    method Remove(key: Key)
      requires Valid()
      modifies heap, heap.Objects()
      ensures Valid() && heap.Objects() <= old(heap.Objects())
      ensures Waiting() == old(Waiting()) - {key}
    {
      hide Heap, ByKey, UniqueKeys;
      var i := Find(key);
      if i < |heap.items| {
        var _ := RemoveAt(heap.items[i].index);
      } else {
        assert old(Waiting()) - {key} == old(Waiting());
      }
    }

    method RemoveAt(i: nat) returns (item: ExpiryItem)
      requires Valid() && i < |heap.items|
      modifies heap, heap.Objects()
      ensures Valid() && heap.Objects() == old(heap.Objects()) - {item} && item == old(heap.items)[i]
      ensures Waiting() == old(Waiting()) - {item.key}
    {
      hide Heap, ByKey, UniqueKeys;
      ghost var times, gone := ItemTimes(), heap.items[i];
      assert gone in heap.Objects();
      ByKeyRemove(times, gone);
      item := heap.Remove(i);
      assert ItemTimes() == times - {gone};
    }

    /** The root expires no later than any other. */
    lemma RootFirst()
      requires Valid() && heap.items != []
      ensures forall k :: k in Waiting() ==> heap.items[0].expiresAt <= Waiting()[k]
      ensures heap.items[0].key in Waiting() && Waiting()[heap.items[0].key] == heap.items[0].expiresAt
    {
      assert heap.items[0] in heap.Objects();
      forall x | x in heap.Objects() ensures heap.items[0].expiresAt <= x.expiresAt {
        var i :| 0 <= i < |heap.items| && heap.items[i] == x;
        RootIsLeast(Times(heap.items), |heap.items|, i);
      }
    }

    /** The clean-up pass: fires exactly the keys expiring at or before `now`, in order of expiry,
        and keeps all others. */
    method ProcessExpiredKeys(now: int) returns (fired: seq<Key>)
      requires Valid()
      modifies heap, heap.Objects()
      ensures Valid()
      ensures FiredSoFar(old(Waiting()), Waiting(), fired, now)
      ensures forall k :: k in Waiting() ==> Waiting()[k] > now
    {
      hide Heap, ByKey, UniqueKeys, FiredSoFar;
      ghost var before := Waiting();
      fired := [];
      FireNone(before, now);
      while |heap.items| > 0
        invariant Valid() && heap.Objects() <= old(heap.Objects())
        invariant FiredSoFar(before, Waiting(), fired, now)
        decreases |heap.Objects()|
      {
        RootFirst();
        if heap.items[0].expiresAt > now { return; }
        FireOne(before, Waiting(), fired, now, heap.items[0].key);
        assert heap.items[0] in heap.Objects();
        var item := RemoveAt(0);
        fired := fired + [item.key];
      }
      NoneWaiting();
    }

    lemma NoneWaiting()
      requires Valid() && heap.items == []
      ensures Waiting() == map[]
    {
    }
  }

  /** Split of the original map into fired keys, in order of expiry and all due by `now`, and the
      keys still waiting, unchanged. */
  ghost predicate FiredSoFar(before: map<Key, int>, waiting: map<Key, int>, fired: seq<Key>, now: int) {
    && (forall k :: k in waiting ==> k in before && waiting[k] == before[k] && k !in fired)
    && (forall k :: k in before ==> k in waiting || k in fired)
    && (forall k :: k in fired ==> k in before && before[k] <= now)
    && (forall i, j :: 0 <= i < j < |fired| ==> fired[i] != fired[j] && before[fired[i]] <= before[fired[j]])
    && (forall i, k :: 0 <= i < |fired| && k in waiting ==> before[fired[i]] <= waiting[k])
  }

  lemma FireNone(before: map<Key, int>, now: int)
    ensures FiredSoFar(before, before, [], now)
  {
  }

  lemma FireOne(before: map<Key, int>, waiting: map<Key, int>, fired: seq<Key>, now: int, key: Key)
    requires FiredSoFar(before, waiting, fired, now)
    requires key in waiting && waiting[key] <= now && forall k :: k in waiting ==> waiting[key] <= waiting[k]
    ensures FiredSoFar(before, waiting - {key}, fired + [key], now)
  {
  }

  /** What a finished pass comes to: the fired keys are exactly those due, the rest is the original
      map without them. */
  lemma PassIsExact(before: map<Key, int>, waiting: map<Key, int>, fired: seq<Key>, now: int)
    requires FiredSoFar(before, waiting, fired, now) && forall k :: k in waiting ==> waiting[k] > now
    ensures forall k :: k in fired <==> k in before && before[k] <= now
    ensures waiting == map k | k in before && before[k] > now :: before[k]
  {
  }
}
