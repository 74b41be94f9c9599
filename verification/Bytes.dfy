/** Byte strings, fixed-width integers and the shared result types. */
module Bytes {

  type Byte = b: int | 0 <= b < 256
  type Bytes = seq<Byte>

  const TWO16: int := 0x1_0000
  const TWO32: int := 0x1_0000_0000

  type U16 = n: int | 0 <= n < TWO16
  type U32 = n: int | 0 <= n < TWO32

  datatype Option<+T> = None | Some(value: T)

  /** The elements of a set, each once, in some order. */
  ghost predicate OrderOf<T>(order: seq<T>, elements: set<T>) {
    && (forall i, j :: 0 <= i < j < |order| ==> order[i] != order[j])
    && (forall x :: x in order ==> x in elements)
    && (forall x :: x in elements ==> x in order)
  }

  lemma {:induction false} AnyOrder<T>(elements: set<T>) returns (order: seq<T>)
    ensures OrderOf(order, elements)
  {
    order := [];
    if elements != {} {
      var x :| x in elements;
      order := AnyOrder(elements - {x});
      order := order + [x];
    }
  }

  function Pow256(w: nat): (p: nat)
    ensures p >= 1
  {
    if w == 0 then 1 else 256 * Pow256(w - 1)
  }

  // ---- big-endian fields, as encoding/binary's BigEndian writes them ----

  /** The low w bytes of n, most significant first. */
  function BE(n: nat, w: nat): (b: Bytes)
    ensures |b| == w
    decreases w, n
  {
    if w == 0 then [] else BE(n / 256, w - 1) + [n % 256]
  }

  function FromBE(b: Bytes): (n: nat)
    ensures n < Pow256(|b|)
  {
    if b == [] then 0 else FromBE(b[..|b| - 1]) * 256 + b[|b| - 1]
  }

  lemma FromBEAppend(b: Bytes, x: Byte)
    ensures FromBE(b + [x]) == FromBE(b) * 256 + x
  {
    assert (b + [x])[..|b|] == b;
  }

  lemma {:induction false} BERoundTrip(n: nat, w: nat)
    requires n < Pow256(w)
    ensures FromBE(BE(n, w)) == n
  {
    if w > 0 {
      hide FromBE;
      FromBEAppend(BE(n / 256, w - 1), n % 256);
      BERoundTrip(n / 256, w - 1);
    }
  }

  // ---- little-endian fields, as encoding/binary's LittleEndian writes them ----

  /** The low w bytes of n, least significant first. */
  function LE(n: nat, w: nat): (b: Bytes)
    ensures |b| == w
    decreases w, n
  {
    if w == 0 then [] else [n % 256] + LE(n / 256, w - 1)
  }

  function FromLE(b: Bytes): (n: nat)
    ensures n < Pow256(|b|)
  {
    if b == [] then 0 else b[0] + 256 * FromLE(b[1..])
  }

  lemma {:induction false} LERoundTrip(n: nat, w: nat)
    requires n < Pow256(w)
    ensures FromLE(LE(n, w)) == n
  {
    if w > 0 {
      var b := LE(n, w);
      assert b[1..] == LE(n / 256, w - 1);
      LERoundTrip(n / 256, w - 1);
    }
  }

  lemma Pow256Widths()
    ensures Pow256(2) == TWO16 && Pow256(4) == TWO32
  {
    assert Pow256(1) == 256;
    assert Pow256(3) == 0x100_0000;
  }

  function Zeros(n: nat): (z: Bytes)
    ensures |z| == n
    ensures forall i :: 0 <= i < n ==> z[i] == 0
  {
    seq(n, _ => 0)
  }

  /** What `copy(dst, src)` leaves in a zeroed destination of length n. */
  function Fit(src: Bytes, n: nat): (r: Bytes)
    ensures |r| == n
    ensures |src| == n ==> r == src
  {
    if n <= |src| then src[..n] else src + Zeros(n - |src|)
  }
}
