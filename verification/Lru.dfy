/** The LRU cache of cache.go: a map and a recency list over the same elements. */
module Lru {
  import opened Bytes

  // ---- the recency list as a value ----

  datatype Item<K, V> = Item(key: K, value: V)

  /** Front first. */
  type Recency<K, V> = seq<Item<K, V>>

  predicate Mentions<K(==), V>(l: Recency<K, V>, k: K) {
    exists i :: 0 <= i < |l| && l[i].key == k
  }

  function Without<K(==), V>(l: Recency<K, V>, k: K): Recency<K, V> {
    if l == [] then []
    else if l[0].key == k then Without(l[1..], k)
    else [l[0]] + Without(l[1..], k)
  }

  function Find<K(==), V>(l: Recency<K, V>, k: K): Option<V> {
    if l == [] then None else if l[0].key == k then Some(l[0].value) else Find(l[1..], k)
  }

  /** A hit moves the item to the front. */
  function AfterGet<K(==), V>(l: Recency<K, V>, k: K): Recency<K, V> {
    match Find(l, k)
    case None => l
    case Some(v) => [Item(k, v)] + Without(l, k)
  }

  /** Make room before inserting: when the list is full, the last item goes, if there is one. */
  function Evicted<K, V>(l: Recency<K, V>, capacity: int): Recency<K, V> {
    if |l| >= capacity && l != [] then l[..|l| - 1] else l
  }

  function AfterSet<K(==), V>(l: Recency<K, V>, capacity: int, k: K, v: V): Recency<K, V> {
    [Item(k, v)] + Evicted(Without(l, k), capacity)
  }

  // ---- what a run of operations leaves ----

  datatype Op<K, V> = Get(key: K) | Set(key: K, value: V) | Remove(key: K) | Clear

  /** The list, and a record of the run kept apart from it: when each key was last touched (by a
      Set or by a hit) and what it was last set to. */
  datatype History<K, V> = History(list: Recency<K, V>, touched: map<K, nat>, lastSet: map<K, V>, now: nat)

  function Step<K(==), V>(h: History<K, V>, capacity: int, op: Op<K, V>): History<K, V> {
    match op
    case Get(k) =>
      History(AfterGet(h.list, k), if Find(h.list, k).Some? then h.touched[k := h.now] else h.touched, h.lastSet,
          h.now + 1)
    case Set(k, v) => History(AfterSet(h.list, capacity, k, v), h.touched[k := h.now], h.lastSet[k := v], h.now + 1)
    case Remove(k) => History(Without(h.list, k), h.touched, h.lastSet, h.now + 1)
    case Clear => History([], h.touched, h.lastSet, h.now + 1)
  }

  function Run<K(==), V>(capacity: int, ops: seq<Op<K, V>>): History<K, V> {
    if ops == [] then History([], map[], map[], 0)
    else Step(Run(capacity, ops[..|ops| - 1]), capacity, ops[|ops| - 1])
  }

  /** An item was touched before now and holds the last value set. */
  ghost predicate ItemOk<K, V>(h: History<K, V>, it: Item<K, V>) {
    it.key in h.touched && h.touched[it.key] < h.now && it.key in h.lastSet && h.lastSet[it.key] == it.value
  }

  /** Items in descending order of last touch; in particular no key twice. */
  ghost predicate Ordered<K, V>(h: History<K, V>) {
    Descends(h.list, h.touched) && forall it :: it in h.list ==> ItemOk(h, it)
  }

  ghost predicate Bounded<K, V>(h: History<K, V>, capacity: int) {
    |h.list| <= if capacity < 1 then 1 else capacity
  }

  /** Taking a key out keeps the order and touches nothing else. */
  lemma {:induction false} WithoutKeeps<K, V>(l: Recency<K, V>, k: K)
    ensures |Without(l, k)| <= |l|
    ensures !Mentions(Without(l, k), k)
    ensures forall it :: it in Without(l, k) ==> it in l && it.key != k
    ensures forall it :: it in l && it.key != k ==> it in Without(l, k)
    ensures Mentions(l, k) ==> |Without(l, k)| < |l|
  {
    if l != [] {
      WithoutKeeps(l[1..], k);
      var w := Without(l, k);
      forall i | 0 <= i < |w| ensures w[i].key != k {
        if l[0].key == k {
          assert w[i] == Without(l[1..], k)[i];
        } else if i > 0 {
          assert w[i] == Without(l[1..], k)[i - 1];
        }
      }
      assert l == [l[0]] + l[1..];
      if Mentions(l, k) && l[0].key != k {
        var i :| 0 <= i < |l| && l[i].key == k;
        assert l[1..][i - 1].key == k;
      }
    }
  }

  /** The list is a subsequence of the other's items, in the same order. */
  ghost predicate Descends<K, V>(l: Recency<K, V>, touched: map<K, nat>) {
    && (forall i :: 0 <= i < |l| ==> l[i].key in touched)
    && (forall i, j :: 0 <= i < j < |l| ==> touched[l[i].key] > touched[l[j].key])
  }

  lemma DescendsTail<K, V>(l: Recency<K, V>, touched: map<K, nat>)
    requires l != [] && Descends(l, touched)
    ensures Descends(l[1..], touched) && forall it :: it in l[1..] ==> touched[it.key] < touched[l[0].key]
  {
  }

  lemma DescendsCons<K, V>(it: Item<K, V>, l: Recency<K, V>, touched: map<K, nat>)
    requires Descends(l, touched) && it.key in touched && forall x :: x in l ==> touched[x.key] < touched[it.key]
    ensures Descends([it] + l, touched)
  {
    var m := [it] + l;
    forall i, j | 0 <= i < j < |m| ensures touched[m[i].key] > touched[m[j].key] {
      assert m[j] in l;
    }
  }

  lemma {:induction false} WithoutDescends<K, V>(l: Recency<K, V>, k: K, touched: map<K, nat>)
    requires Descends(l, touched)
    ensures Descends(Without(l, k), touched)
  {
    if l != [] {
      DescendsTail(l, touched);
      WithoutDescends(l[1..], k, touched);
      WithoutKeeps(l[1..], k);
      if l[0].key != k {
        assert forall x :: x in Without(l[1..], k) ==> x in l[1..];
        DescendsCons(l[0], Without(l[1..], k), touched);
      }
    }
  }

  lemma {:induction false} FindIsItem<K, V>(l: Recency<K, V>, k: K)
    ensures Find(l, k).Some? ==> Item(k, Find(l, k).value) in l
    ensures Find(l, k).Some? <==> Mentions(l, k)
  {
    if l != [] {
      FindIsItem(l[1..], k);
      if Mentions(l[1..], k) {
        var i :| 0 <= i < |l[1..]| && l[1..][i].key == k;
        assert l[i + 1].key == k;
      }
      if Mentions(l, k) && l[0].key != k {
        var i :| 0 <= i < |l| && l[i].key == k;
        assert l[1..][i - 1].key == k;
      }
    }
  }

  /** Touching k now puts it in front of everything else. */
  lemma TouchFront<K, V>(h: History<K, V>, l: Recency<K, V>, k: K, v: V)
    requires Ordered(h) && Descends(l, h.touched)
    requires forall it :: it in l ==> it in h.list && it.key != k
    ensures Descends([Item(k, v)] + l, h.touched[k := h.now])
  {
    var touched' := h.touched[k := h.now];
    forall i | 0 <= i < |l| ensures l[i].key != k && touched'[l[i].key] == h.touched[l[i].key] < h.now {
      assert l[i] in l && ItemOk(h, l[i]);
    }
    assert Descends(l, touched');
    forall x | x in l ensures touched'[x.key] < touched'[k] {
      assert ItemOk(h, x);
    }
    DescendsCons(Item(k, v), l, touched');
  }

  lemma PrefixDescends<K, V>(l: Recency<K, V>, n: nat, touched: map<K, nat>)
    requires n <= |l| && Descends(l, touched)
    ensures Descends(l[..n], touched)
  {
  }

  lemma StepOrdered<K, V>(h: History<K, V>, capacity: int, op: Op<K, V>)
    requires Ordered(h)
    ensures Ordered(Step(h, capacity, op))
  {
    match op
    case Get(k) => GetOrdered(h, capacity, k);
    case Set(k, v) => SetOrdered(h, capacity, k, v);
    case Remove(k) =>
      WithoutKeeps(h.list, k);
      WithoutDescends(h.list, k, h.touched);
      forall it | it in Without(h.list, k) ensures ItemOk(Step(h, capacity, op), it) {
        assert ItemOk(h, it);
      }
    case Clear =>
  }

  lemma GetOrdered<K, V>(h: History<K, V>, capacity: int, k: K)
    requires Ordered(h)
    ensures Ordered(Step(h, capacity, Get(k)))
  {
    var h' := Step(h, capacity, Get(k));
    FindIsItem(h.list, k);
    if Find(h.list, k).Some? {
      var v := Find(h.list, k).value;
      WithoutKeeps(h.list, k);
      WithoutDescends(h.list, k, h.touched);
      TouchFront(h, Without(h.list, k), k, v);
      assert ItemOk(h, Item(k, v));
    }
    forall it | it in h'.list ensures ItemOk(h', it) {
      assert it in h.list && ItemOk(h, it);
    }
  }

  lemma SetOrdered<K, V>(h: History<K, V>, capacity: int, k: K, v: V)
    requires Ordered(h)
    ensures Ordered(Step(h, capacity, Set(k, v)))
  {
    var h' := Step(h, capacity, Set(k, v));
    var w := Without(h.list, k);
    var e := Evicted(w, capacity);
    WithoutKeeps(h.list, k);
    WithoutDescends(h.list, k, h.touched);
    assert e == w[..|e|];
    PrefixDescends(w, |e|, h.touched);
    forall it | it in e ensures it in h.list && it.key != k {
      assert it in w;
    }
    TouchFront(h, e, k, v);
    forall it | it in h'.list ensures ItemOk(h', it) {
      if it != Item(k, v) {
        assert it in e && ItemOk(h, it);
      }
    }
  }

  lemma StepBounded<K, V>(h: History<K, V>, capacity: int, op: Op<K, V>)
    requires Bounded(h, capacity)
    ensures Bounded(Step(h, capacity, op), capacity)
  {
    if !op.Clear? {
      WithoutKeeps(h.list, op.key);
      FindIsItem(h.list, op.key);
    }
  }

  /** After any run: the list is in descending order of last touch with no key twice, every item
      holds the last value set for its key, and there are at most max(1, capacity) of them. */
  lemma {:induction false} RunOrdered<K, V>(capacity: int, ops: seq<Op<K, V>>)
    ensures Ordered(Run(capacity, ops)) && Bounded(Run(capacity, ops), capacity)
  {
    if ops != [] {
      var init := ops[..|ops| - 1];
      RunOrdered(capacity, init);
      StepOrdered(Run(capacity, init), capacity, ops[|ops| - 1]);
      StepBounded(Run(capacity, init), capacity, ops[|ops| - 1]);
    }
  }

  /** A hit returns the last value set. */
  lemma HitIsLastSet<K, V>(capacity: int, ops: seq<Op<K, V>>, k: K)
    ensures var h := Run(capacity, ops);
      Find(h.list, k).Some? ==> k in h.lastSet && Find(h.list, k).value == h.lastSet[k]
  {
    RunOrdered(capacity, ops);
    FindIsItem(Run(capacity, ops).list, k);
    var h := Run(capacity, ops);
    if Find(h.list, k).Some? {
      assert ItemOk(h, Item(k, Find(h.list, k).value));
    }
  }

  ghost predicate OlderThanAll<K, V>(h: History<K, V>, k: K, kept: Recency<K, V>) {
    k in h.touched && forall it :: it in kept ==> it.key in h.touched && h.touched[it.key] > h.touched[k]
  }

  /** When a Set evicts, it evicts exactly one item: the least recently touched of those that
      were there besides the key being set. */
  lemma EvictsLeastRecent<K, V>(capacity: int, ops: seq<Op<K, V>>, k: K, v: V)
    ensures var h := Run(capacity, ops);
      var others := Without(h.list, k);
      var kept := AfterSet(h.list, capacity, k, v)[1..];
      if |others| < capacity || others == [] then kept == others
      else kept + [others[|others| - 1]] == others && OlderThanAll(h, others[|others| - 1].key, kept)
  {
    RunOrdered(capacity, ops);
    var h := Run(capacity, ops);
    var others := Without(h.list, k);
    WithoutDescends(h.list, k, h.touched);
    assert AfterSet(h.list, capacity, k, v)[1..] == Evicted(others, capacity);
  }

  // ---- the cache object ----

  class Element<K, V> {
    const key: K
    const value: V

    constructor (key: K, value: V)
      ensures this.key == key && this.value == value
    {
      this.key, this.value := key, value;
    }
  }

  function ItemsOf<K, V>(lru: seq<Element<K, V>>): (l: Recency<K, V>)
    ensures |l| == |lru|
    ensures forall i :: 0 <= i < |l| ==> l[i] == Item(lru[i].key, lru[i].value)
  {
    seq(|lru|, i requires 0 <= i < |lru| => Item(lru[i].key, lru[i].value))
  }

  /** `list.Remove` of an element. */
  function Unlink<K, V>(lru: seq<Element<K, V>>, e: Element<K, V>): seq<Element<K, V>> {
    if lru == [] then [] else if lru[0] == e then Unlink(lru[1..], e) else [lru[0]] + Unlink(lru[1..], e)
  }

  ghost predicate NoTwins<K, V>(lru: seq<Element<K, V>>) {
    forall i, j :: 0 <= i < j < |lru| ==> lru[i].key != lru[j].key
  }

  lemma {:induction false} UnlinkElements<K, V>(lru: seq<Element<K, V>>, e: Element<K, V>)
    ensures forall x :: x in Unlink(lru, e) ==> x in lru && x != e
    ensures forall x :: x in lru && x != e ==> x in Unlink(lru, e)
  {
    if lru != [] {
      UnlinkElements(lru[1..], e);
      assert lru == [lru[0]] + lru[1..];
    }
  }

  lemma {:induction false} UnlinkNoTwins<K, V>(lru: seq<Element<K, V>>, e: Element<K, V>)
    requires NoTwins(lru)
    ensures NoTwins(Unlink(lru, e))
  {
    if lru != [] {
      var rest := lru[1..];
      UnlinkNoTwins(rest, e);
      UnlinkElements(rest, e);
      forall x | x in Unlink(rest, e) ensures x.key != lru[0].key {
        assert x in rest;
        var i :| 0 <= i < |rest| && rest[i] == x;
        assert lru[i + 1] == x;
      }
    }
  }

  lemma TwinFree<K, V>(lru: seq<Element<K, V>>, e: Element<K, V>)
    requires NoTwins(lru) && e in lru
    ensures forall x :: x in lru && x.key == e.key ==> x == e
  {
    var i :| 0 <= i < |lru| && lru[i] == e;
    forall x | x in lru && x.key == e.key ensures x == e {
      var j :| 0 <= j < |lru| && lru[j] == x;
    }
  }

  /** Unlinking the element of a key is taking the key out of the list. */
  lemma {:induction false} UnlinkIsWithout<K, V>(lru: seq<Element<K, V>>, e: Element<K, V>)
    requires forall x :: x in lru && x.key == e.key ==> x == e
    ensures ItemsOf(Unlink(lru, e)) == Without(ItemsOf(lru), e.key)
  {
    if lru != [] {
      var rest := lru[1..];
      assert lru[0] in lru && forall x :: x in rest ==> x in lru;
      assert ItemsOf(lru)[1..] == ItemsOf(rest);
      UnlinkIsWithout(rest, e);
    }
  }

  lemma UnlinkKeeps<K, V>(lru: seq<Element<K, V>>, e: Element<K, V>)
    requires NoTwins(lru) && e in lru
    ensures NoTwins(Unlink(lru, e))
    ensures forall x :: x in Unlink(lru, e) ==> x in lru && x != e
    ensures forall x :: x in lru && x != e ==> x in Unlink(lru, e)
    ensures ItemsOf(Unlink(lru, e)) == Without(ItemsOf(lru), e.key)
    ensures forall x :: x in lru && x.key == e.key ==> x == e
  {
    hide Without, Unlink, NoTwins;
    UnlinkElements(lru, e);
    UnlinkNoTwins(lru, e);
    TwinFree(lru, e);
    UnlinkIsWithout(lru, e);
  }

  lemma {:induction false} FindElement<K, V>(lru: seq<Element<K, V>>, e: Element<K, V>)
    requires NoTwins(lru) && e in lru
    ensures Find(ItemsOf(lru), e.key) == Some(e.value)
  {
    assert lru == [lru[0]] + lru[1..];
    assert ItemsOf(lru)[1..] == ItemsOf(lru[1..]);
    if lru[0] != e {
      assert e in lru[1..];
      FindElement(lru[1..], e);
      var i :| 0 <= i < |lru[1..]| && lru[1..][i] == e;
      assert lru[i + 1] == e;
    }
  }

  lemma {:induction false} FindAbsent<K, V>(lru: seq<Element<K, V>>, k: K)
    requires forall e :: e in lru ==> e.key != k
    ensures Find(ItemsOf(lru), k) == None && Without(ItemsOf(lru), k) == ItemsOf(lru)
  {
    if lru != [] {
      assert ItemsOf(lru)[1..] == ItemsOf(lru[1..]);
      FindAbsent(lru[1..], k);
    }
  }

  class LRUCache<K(==), V> {
    const capacity: int
    var items: map<K, Element<K, V>>
    var lru: seq<Element<K, V>>
    var hits: nat
    var misses: nat

    /** Map and list hold the same elements, once each, under their keys. */
    ghost predicate Valid()
      reads this
    {
      && NoTwins(lru)
      && (forall e :: e in lru ==> e.key in items && items[e.key] == e)
      && (forall k :: k in items ==> items[k] in lru && items[k].key == k)
    }

    function List(): Recency<K, V>
      reads this
    {
      ItemsOf(lru)
    }

    constructor (capacity: int)
      ensures Valid() && List() == [] && this.capacity == capacity && hits == 0 && misses == 0
    {
      this.capacity := capacity;
      items, lru, hits, misses := map[], [], 0, 0;
    }

    method Get(key: K) returns (found: Option<V>)
      requires Valid()
      modifies this
      ensures Valid() && found == Find(old(List()), key) && List() == AfterGet(old(List()), key)
      ensures hits == old(hits) + (if found.Some? then 1 else 0)
      ensures misses == old(misses) + (if found.Some? then 0 else 1)
    {
      hide Find, Without, Unlink;
      if key in items {
        var elem := items[key];
        FindElement(lru, elem);
        MoveToFront(elem);
        hits := hits + 1;
        return Some(elem.value);
      }
      FindAbsent(lru, key);
      misses := misses + 1;
      return None;
    }

    method MoveToFront(elem: Element<K, V>)
      requires Valid() && elem in lru
      modifies this`lru
      ensures Valid() && List() == [Item(elem.key, elem.value)] + Without(old(List()), elem.key)
    {
      hide Find, Without, Unlink;
      UnlinkKeeps(lru, elem);
      lru := [elem] + Unlink(lru, elem);
    }

    method Set(key: K, value: V)
      requires Valid()
      modifies this
      ensures Valid() && List() == AfterSet(old(List()), capacity, key, value)
    {
      hide Without;
      Remove(key);
      ghost var others := List();
      if |lru| >= capacity {
        EvictOldest();
      }
      assert List() == Evicted(others, capacity);
      PushFront(key, value);
    }

    method PushFront(key: K, value: V)
      requires Valid() && key !in items
      modifies this
      ensures Valid() && List() == [Item(key, value)] + old(List())
    {
      var elem := new Element(key, value);
      assert forall e :: e in lru ==> e.key != key;
      items := items[key := elem];
      lru := [elem] + lru;
      assert List() == [Item(key, value)] + old(List());
    }

    method EvictOldest()
      requires Valid()
      modifies this
      ensures Valid() && List() == if old(List()) == [] then [] else old(List())[..|old(List())| - 1]
      ensures items.Keys <= old(items.Keys) && unchanged(this`hits, this`misses)
    {
      if lru != [] {
        var n := |lru| - 1;
        assert lru == lru[..n] + [lru[n]];
        items := items - {lru[n].key};
        lru := lru[..n];
      }
    }

    method Remove(key: K)
      requires Valid()
      modifies this
      ensures Valid() && List() == Without(old(List()), key) && key !in items
      ensures unchanged(this`hits, this`misses)
    {
      if key in items {
        var elem := items[key];
        UnlinkKeeps(lru, elem);
        lru := Unlink(lru, elem);
        items := items - {key};
      } else {
        FindAbsent(lru, key);
      }
    }

    method Clear()
      modifies this
      ensures Valid() && List() == []
    {
      items, lru := map[], [];
    }
  }
}
