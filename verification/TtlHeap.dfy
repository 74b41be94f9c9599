/** The expiry heap of ttl.go. The sifting is Go's container/heap, written out; the items are
    objects that know their own position. */
module TtlHeap {
  import opened Bytes

  type Key = Bytes

  // ---- heap order on plain sequences ----

  predicate IsChild(p: int, k: int) {
    k == 2 * p + 1 || k == 2 * p + 2
  }

  /** The first n elements are a min-heap. */
  ghost predicate Heap(e: seq<int>, n: nat)
    requires n <= |e|
  {
    forall p: nat, k: nat :: IsChild(p, k) && k < n ==> e[p] <= e[k]
  }

  /** A heap but for what is at i: elsewhere in order, and in order across i. */
  ghost predicate HeapBut(e: seq<int>, n: nat, i: nat)
    requires n <= |e|
  {
    && (forall p: nat, k: nat :: IsChild(p, k) && k < n && p != i && k != i ==> e[p] <= e[k])
    && (forall p: nat, k: nat :: IsChild(p, i) && IsChild(i, k) && k < n ==> e[p] <= e[k])
  }

  ghost predicate AboveOk(e: seq<int>, n: nat, i: nat)
    requires n <= |e|
  {
    i < n ==> forall p: nat :: IsChild(p, i) ==> e[p] <= e[i]
  }

  ghost predicate BelowOk(e: seq<int>, n: nat, i: nat)
    requires n <= |e|
  {
    forall k: nat :: IsChild(i, k) && k < n ==> e[i] <= e[k]
  }

  function Swapped<T>(s: seq<T>, i: nat, j: nat): seq<T>
    requires i < |s| && j < |s|
  {
    s[i := s[j]][j := s[i]]
  }

  lemma HeapFromBut(e: seq<int>, n: nat, i: nat)
    requires n <= |e| && HeapBut(e, n, i) && AboveOk(e, n, i) && BelowOk(e, n, i)
    ensures Heap(e, n)
  {
  }

  /** Moving a too small element up one level leaves the problem at the parent. */
  lemma UpStep(e: seq<int>, n: nat, i: nat, j: nat)
    requires j < n <= |e| && IsChild(i, j) && e[j] < e[i]
    requires HeapBut(e, n, j) && BelowOk(e, n, j)
    ensures HeapBut(Swapped(e, i, j), n, i) && BelowOk(Swapped(e, i, j), n, i)
  {
    var s := Swapped(e, i, j);
    forall p: nat, k: nat | IsChild(p, k) && k < n && p != i && k != i ensures s[p] <= s[k] {
      if p == j {
        assert IsChild(i, j) && IsChild(j, k);
      }
    }
    forall p: nat, k: nat | IsChild(p, i) && IsChild(i, k) && k < n ensures s[p] <= s[k] {
      assert p != j && p != i;
      assert e[p] <= e[i];
      if k != j {
        assert e[i] <= e[k];
      }
    }
    forall k: nat | IsChild(i, k) && k < n ensures s[i] <= s[k] {
      if k != j {
        assert e[i] <= e[k];
      }
    }
  }

  /** Moving a too large element down to its smaller child leaves the problem there. */
  lemma DownStep(e: seq<int>, n: nat, i: nat, j: nat)
    requires j < n <= |e| && IsChild(i, j) && e[j] < e[i]
    requires forall k: nat :: IsChild(i, k) && k < n ==> e[j] <= e[k]
    requires HeapBut(e, n, i)
    ensures HeapBut(Swapped(e, i, j), n, j) && AboveOk(Swapped(e, i, j), n, j)
  {
    var s := Swapped(e, i, j);
    forall p: nat, k: nat | IsChild(p, k) && k < n && p != j && k != j ensures s[p] <= s[k] {
      if k == i {
        assert IsChild(p, i) && IsChild(i, j);
      }
    }
    forall p: nat, k: nat | IsChild(p, j) && IsChild(j, k) && k < n ensures s[p] <= s[k] {
      assert p == i;
      assert e[j] <= e[k];
    }
    forall p: nat | IsChild(p, j) ensures s[p] <= s[j] {
      assert p == i;
    }
  }

  /** The root is the least element. */
  lemma {:induction false} RootIsLeast(e: seq<int>, n: nat, i: nat)
    requires i < n <= |e| && Heap(e, n)
    ensures e[0] <= e[i]
    decreases i
  {
    if i > 0 {
      var p := (i - 1) / 2;
      assert IsChild(p, i);
      RootIsLeast(e, n, p);
    }
  }

  /** Changing one element, or putting another in its place, leaves a heap but for that place. */
  lemma HeapButAfterChange(e: seq<int>, f: seq<int>, n: nat, m: nat, i: nat)
    requires n <= m <= |e| && n <= |f| && Heap(e, m) && i < m
    requires forall k :: 0 <= k < n && k != i ==> f[k] == e[k]
    ensures HeapBut(f, n, i)
  {
    forall p: nat, k: nat | IsChild(p, i) && IsChild(i, k) && k < n ensures f[p] <= f[k] {
      assert e[p] <= e[i] && e[i] <= e[k];
    }
  }

  lemma HeapPrefix(e: seq<int>, n: nat, m: nat)
    requires n <= m <= |e| && Heap(e, m)
    ensures Heap(e[..n], n) && Heap(e, n)
  {
  }

  // ---- items and the heap object ----

  class ExpiryItem {
    const key: Key
    var expiresAt: int
    var index: int

    constructor (key: Key, expiresAt: int)
      ensures this.key == key && this.expiresAt == expiresAt
    {
      this.key, this.expiresAt, this.index := key, expiresAt, 0;
    }
  }

  function Times(items: seq<ExpiryItem>): (e: seq<int>)
    reads items
    ensures |e| == |items|
    ensures forall i :: 0 <= i < |e| ==> e[i] == items[i].expiresAt
  {
    if items == [] then [] else Times(items[..|items| - 1]) + [items[|items| - 1].expiresAt]
  }

  lemma TimesAre(items: seq<ExpiryItem>, e: seq<int>)
    requires |e| == |items| && forall i :: 0 <= i < |e| ==> e[i] == items[i].expiresAt
    ensures Times(items) == e
  {
  }

  class ExpiryHeap {
    var items: seq<ExpiryItem>

    /** Distinct objects, each knowing its position. */
    ghost predicate Placed()
      reads this, items
    {
      && (forall i, j :: 0 <= i < j < |items| ==> items[i] != items[j])
      && (forall i :: 0 <= i < |items| ==> items[i].index == i)
    }

    ghost function Objects(): set<ExpiryItem>
      reads this
    {
      set x | x in items
    }

    constructor ()
      ensures items == []
    {
      items := [];
    }

    method Swap(i: nat, j: nat)
      requires i < |items| && j < |items| && Placed()
      modifies this`items, Objects()`index
      ensures items == Swapped(old(items), i, j) && Placed()
      ensures Objects() == old(Objects())
      ensures Times(items) == Swapped(old(Times(items)), i, j)
    {
      ghost var before := Times(items);
      SwapKeepsElements(items, i, j);
      items := items[i := items[j]][j := items[i]];
      items[i].index := i;
      items[j].index := j;
      TimesAre(items, Swapped(before, i, j));
    }

    /** container/heap's `up`. */
    method Up(start: nat, ghost n: nat)
      requires start < n <= |items| && Placed()
      requires HeapBut(Times(items), n, start) && BelowOk(Times(items), n, start)
      modifies this`items, Objects()`index
      ensures Placed() && Objects() == old(Objects()) && |items| == old(|items|)
      ensures Heap(Times(items), n) && items[n..] == old(items)[n..]
    {
      hide HeapBut, BelowOk, Heap;
      var j: nat := start;
      while true
        invariant j < n <= |items| && Placed() && Objects() == old(Objects()) && |items| == old(|items|)
        invariant HeapBut(Times(items), n, j) && BelowOk(Times(items), n, j)
        invariant items[n..] == old(items)[n..]
        decreases j
      {
        var i: nat := if j == 0 then 0 else (j - 1) / 2;
        if i == j || items[j].expiresAt >= items[i].expiresAt {
          UpDone(Times(items), n, i, j);
          return;
        }
        UpStep(Times(items), n, i, j);
        Swap(i, j);
        j := i;
      }
    }

    /** container/heap's `down`, on the first n items. */
    method Down(start: nat, n: nat) returns (moved: bool)
      requires n <= |items| && Placed() && HeapBut(Times(items), n, start)
      modifies this`items, Objects()`index
      ensures Placed() && Objects() == old(Objects()) && |items| == old(|items|)
      ensures items[n..] == old(items)[n..]
      ensures moved ==> Heap(Times(items), n)
      ensures !moved ==> items == old(items) && BelowOk(Times(items), n, start)
    {
      hide HeapBut, BelowOk, AboveOk, Heap;
      var i := start;
      while true
        invariant start <= i && n <= |items| && Placed() && Objects() == old(Objects()) && |items| == old(|items|)
        invariant HeapBut(Times(items), n, i) && items[n..] == old(items)[n..]
        invariant i > start ==> AboveOk(Times(items), n, i)
        invariant i == start ==> items == old(items)
        decreases n - i
      {
        var j := DownOne(i, n);
        if j == i { break; }
        i := j;
      }
      moved := i > start;
      if moved {
        HeapFromBut(Times(items), n, i);
      }
    }

    /** One level down, to the smaller child; the same position if the element may stay. */
    method DownOne(i: nat, n: nat) returns (j: nat)
      requires n <= |items| && Placed() && HeapBut(Times(items), n, i)
      modifies this`items, Objects()`index
      ensures Placed() && Objects() == old(Objects()) && |items| == old(|items|) && items[n..] == old(items)[n..]
      ensures j == i ==> items == old(items) && BelowOk(Times(items), n, i)
      ensures j != i ==> i < j < n && HeapBut(Times(items), n, j) && AboveOk(Times(items), n, j)
    {
      hide HeapBut, AboveOk, Heap;
      var j1 := 2 * i + 1;
      if j1 >= n { return i; }
      j := j1;
      if j1 + 1 < n && items[j1 + 1].expiresAt < items[j1].expiresAt {
        j := j1 + 1;
      }
      SmallerChild(Times(items), n, i, j);
      if items[j].expiresAt >= items[i].expiresAt { return i; }
      DownStep(Times(items), n, i, j);
      Swap(i, j);
    }

    method Fix(i: nat)
      requires i < |items| && Placed() && HeapBut(Times(items), |items|, i)
      modifies this`items, Objects()`index
      ensures Placed() && Objects() == old(Objects()) && Heap(Times(items), |items|)
    {
      var moved := Down(i, |items|);
      if !moved {
        Up(i, |items|);
      }
    }

    /** heap.Push: the new item goes last and sifts up. */
    method Push(item: ExpiryItem)
      requires Placed() && Heap(Times(items), |items|) && item !in items
      modifies this`items, Objects()`index, item`index
      ensures Placed() && Objects() == old(Objects()) + {item} && Heap(Times(items), |items|)
    {
      hide Heap, HeapBut, BelowOk;
      item.index := |items|;
      HeapButAfterPush(Times(items), item.expiresAt);
      items := items + [item];
      assert Objects() == old(Objects()) + {item};
      Up(|items| - 1, |items|);
    }

    /** heap.Remove; heap.Pop is its case i == 0. The removed item loses its position. */
    method Remove(i: nat) returns (item: ExpiryItem)
      requires i < |items| && Placed() && Heap(Times(items), |items|)
      modifies this`items, Objects()`index
      ensures item == old(items)[i] && item.index == -1
      ensures Placed() && Objects() == old(Objects()) - {item} && Heap(Times(items), |items|)
    {
      hide HeapBut, BelowOk, AboveOk, Heap;
      var n := |items| - 1;
      item := items[i];
      if n != i {
        SwapOut(i, n);
      } else {
        HeapPrefix(Times(items), n, |items|);
      }
      DropLast(item);
    }

    /** Put the last item in place i and repair; the item from place i is then last. */
    method SwapOut(i: nat, n: nat)
      requires i < n == |items| - 1 && Placed() && Heap(Times(items), |items|)
      modifies this`items, Objects()`index
      ensures Placed() && Objects() == old(Objects()) && |items| == old(|items|)
      ensures items[n] == old(items)[i] && Heap(Times(items), n)
    {
      hide HeapBut, BelowOk, AboveOk, Heap;
      ghost var before := Times(items);
      Swap(i, n);
      HeapButAfterChange(before, Times(items), n, |items|, i);
      assert items[n..][0] == items[n];
      var moved := Down(i, n);
      if !moved {
        Up(i, n);
      }
      assert items[n..][0] == items[n];
    }

    /** ExpiryHeap.Pop. */
    method DropLast(ghost item: ExpiryItem)
      requires items != [] && Placed() && Heap(Times(items), |items| - 1) && item == items[|items| - 1]
      modifies this`items, Objects()`index
      ensures Placed() && Objects() == old(Objects()) - {item} && Heap(Times(items), |items|)
      ensures item.index == -1
    {
      var n := |items| - 1;
      items[n].index := -1;
      assert items == items[..n] + [items[n]];
      items := items[..n];
      assert Times(items) == old(Times(items))[..n];
    }
  }

  lemma SwapKeepsElements<T>(s: seq<T>, i: nat, j: nat)
    requires i < |s| && j < |s|
    ensures (set x | x in Swapped(s, i, j)) == (set x | x in s)
  {
    var t := Swapped(s, i, j);
    forall x ensures x in t <==> x in s {
      if x in s {
        var k :| 0 <= k < |s| && s[k] == x;
        assert t[if k == i then j else if k == j then i else k] == x;
      }
    }
  }

  lemma UpDone(e: seq<int>, n: nat, i: nat, j: nat)
    requires j < n <= |e| && HeapBut(e, n, j) && BelowOk(e, n, j)
    requires i == (if j == 0 then 0 else (j - 1) / 2) && (i == j || e[j] >= e[i])
    ensures Heap(e, n)
  {
    HeapFromBut(e, n, j);
  }

  lemma SmallerChild(e: seq<int>, n: nat, i: nat, j: nat)
    requires 2 * i + 1 < n <= |e|
    requires j == if 2 * i + 2 < n && e[2 * i + 2] < e[2 * i + 1] then 2 * i + 2 else 2 * i + 1
    ensures IsChild(i, j) && j < n && forall k: nat :: IsChild(i, k) && k < n ==> e[j] <= e[k]
  {
  }

  lemma HeapButAfterPush(e: seq<int>, x: int)
    requires Heap(e, |e|)
    ensures HeapBut(e + [x], |e| + 1, |e|) && BelowOk(e + [x], |e| + 1, |e|)
  {
  }
}
