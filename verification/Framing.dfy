/** Streams of self-delimiting records, as the data files and the write-ahead log both
    are: a reader takes one record off the front of what is left of the stream. */
module Framing {
  import opened Bytes

  /** `io.ReadFull` reports EOF when nothing at all could be read and an unexpected EOF when
      some but not all bytes came; either way the rest of the stream is consumed. */
  datatype Outcome<+T> = Got(item: T, size: nat) | EOF | UnexpectedEOF

  type Reader<!T> = Bytes -> Outcome<T>

  /** A record found at byte offset `off`. */
  datatype Located<+T> = Located(off: nat, item: T)

  /** A reader takes at least one byte, no more than there are, and does not look past
      the record it returns. */
  ghost predicate Stable<T>(read: Reader<T>) {
    && !read([]).Got?
    && (forall r: Bytes :: read(r).Got? ==> 0 < read(r).size <= |r|)
    && (forall r: Bytes, tail: Bytes :: read(r).Got? ==> read(r + tail) == read(r))
  }

  /** A read loop over a stream positioned at offset `off`, adding each record to `acc`. */
  function Scan<T>(read: Reader<T>, r: Bytes, off: nat, acc: seq<Located<T>>): seq<Located<T>>
    decreases |r|
  {
    var o := read(r);
    if o.Got? && 0 < o.size <= |r| then
      Scan(read, r[o.size..], off + o.size, acc + [Located(off, o.item)])
    else acc
  }

  lemma ScanNext<T>(read: Reader<T>, r: Bytes, off: nat, acc: seq<Located<T>>)
    ensures var o := read(r);
      Scan(read, r, off, acc) ==
        if o.Got? && 0 < o.size <= |r| then Scan(read, r[o.size..], off + o.size, acc + [Located(off, o.item)])
        else acc
  {
  }

  /** The bytes are whole records end to end. */
  predicate Tiled<T>(read: Reader<T>, b: Bytes)
    decreases |b|
  {
    b == [] || var o := read(b); o.Got? && 0 < o.size <= |b| && Tiled(read, b[o.size..])
  }

  /** Scanning past a tiled prefix continues at its end. */
  lemma {:induction false} ScanConcat<T>(read: Reader<T>, b: Bytes, tail: Bytes, off: nat, acc: seq<Located<T>>)
    requires Stable(read) && Tiled(read, b)
    ensures Scan(read, b + tail, off, acc) == Scan(read, tail, off + |b|, Scan(read, b, off, acc))
    decreases |b|
  {
    if b == [] {
      assert b + tail == tail;
    } else {
      var o := read(b);
      var rest, off', acc' := b[o.size..], off + o.size, acc + [Located(off, o.item)];
      assert 0 < o.size <= |b| && Tiled(read, rest);
      assert Scan(read, b + tail, off, acc) == Scan(read, rest + tail, off', acc') by {
        assert read(b + tail) == o;
        assert (b + tail)[o.size..] == rest + tail;
      }
      ScanConcat(read, rest, tail, off', acc');
      assert off' + |rest| == off + |b|;
    }
  }

  lemma {:induction false} TiledConcat<T>(read: Reader<T>, b: Bytes, tail: Bytes)
    requires Stable(read) && Tiled(read, b) && Tiled(read, tail)
    ensures Tiled(read, b + tail)
    decreases |b|
  {
    if b == [] {
      assert b + tail == tail;
    } else {
      var o := read(b);
      assert read(b + tail) == o;
      assert (b + tail)[o.size..] == b[o.size..] + tail;
      TiledConcat(read, b[o.size..], tail);
    }
  }

  /** Appending one written record to a tiled stream adds exactly that record, at the old length. */
  lemma ScanAppend<T>(read: Reader<T>, b: Bytes, s: Bytes, x: T)
    requires Stable(read) && Tiled(read, b)
    requires s != [] && read(s) == Got(x, |s|)
    ensures Scan(read, b + s, 0, []) == Scan(read, b, 0, []) + [Located(|b|, x)]
    ensures Tiled(read, b + s)
  {
    var rest := s[|s|..];
    assert rest == [];
    assert Tiled(read, s);
    ScanConcat(read, b, s, 0, []);
    TiledConcat(read, b, s);
    var before := Scan(read, b, 0, []);
    assert Scan(read, s, |b|, before) == Scan(read, rest, |b| + |s|, before + [Located(|b|, x)]);
  }

  /** `write` is undone by `read`, and no proper prefix of what it wrote reads as a record. */
  ghost predicate Writes<T>(read: Reader<T>, write: T -> Bytes, x: T) {
    && write(x) != []
    && (forall tail: Bytes :: read(write(x) + tail) == Got(x, |write(x)|))
    && (forall n: nat :: n < |write(x)| ==> !read(write(x)[..n]).Got?)
  }

  function WriteAll<T>(write: T -> Bytes, xs: seq<T>): Bytes {
    if xs == [] then [] else write(xs[0]) + WriteAll(write, xs[1..])
  }

  /** Records laid end to end from offset `off`, added to `acc`. */
  function Layout<T>(write: T -> Bytes, xs: seq<T>, off: nat, acc: seq<Located<T>>): seq<Located<T>>
    decreases |xs|
  {
    if xs == [] then acc
    else Layout(write, xs[1..], off + |write(xs[0])|, acc + [Located(off, xs[0])])
  }

  /** The number of whole records within the first n bytes. */
  function WholeWithin<T>(write: T -> Bytes, xs: seq<T>, n: nat): (m: nat)
    ensures m <= |xs|
  {
    if xs == [] || n < |write(xs[0])| then 0 else 1 + WholeWithin(write, xs[1..], n - |write(xs[0])|)
  }

  /** The count is what its name says: m records fit in n bytes, m + 1 do not. */
  lemma {:induction false} WholeWithinIsLongest<T>(write: T -> Bytes, xs: seq<T>, n: nat)
    ensures var m := WholeWithin(write, xs, n);
      && |WriteAll(write, xs[..m])| <= n
      && (m < |xs| ==> n < |WriteAll(write, xs[..m + 1])|)
  {
    if xs == [] {
    } else if n < |write(xs[0])| {
      assert xs[..1] == [xs[0]] && xs[..1][1..] == [];
    } else {
      var m := WholeWithin(write, xs[1..], n - |write(xs[0])|);
      WholeWithinIsLongest(write, xs[1..], n - |write(xs[0])|);
      assert xs[..m + 1][1..] == xs[1..][..m];
      if m + 1 < |xs| {
        assert xs[..m + 2][1..] == xs[1..][..m + 1];
      }
    }
  }

  lemma LayoutStep<T>(write: T -> Bytes, xs: seq<T>, m: nat, off: nat, acc: seq<Located<T>>)
    requires 0 < m <= |xs|
    ensures Layout(write, xs[..m], off, acc)
         == Layout(write, xs[1..][..m - 1], off + |write(xs[0])|, acc + [Located(off, xs[0])])
  {
    assert xs[..m][1..] == xs[1..][..m - 1];
  }

  lemma CutStep<T>(read: Reader<T>, write: T -> Bytes, xs: seq<T>, n: nat, off: nat, acc: seq<Located<T>>)
    requires xs != [] && Writes(read, write, xs[0])
    requires n <= |WriteAll(write, xs)|
    ensures var size := |write(xs[0])|;
      Scan(read, WriteAll(write, xs)[..n], off, acc) ==
        if n < size then acc
        else Scan(read, WriteAll(write, xs[1..])[..n - size], off + size, acc + [Located(off, xs[0])])
  {
    var s, rest := write(xs[0]), WriteAll(write, xs[1..]);
    var cut := (s + rest)[..n];
    if n < |s| {
      assert cut == s[..n];
    } else {
      assert cut == s + rest[..n - |s|];
      assert cut[|s|..] == rest[..n - |s|];
    }
  }

  lemma EmptyCut<T>(read: Reader<T>, write: T -> Bytes, off: nat, acc: seq<Located<T>>)
    requires Stable(read)
    ensures Scan(read, [], off, acc) == acc && Layout(write, [], off, acc) == acc
  {
  }

  /** Cut a stream of written records at any byte: the scan finds exactly the longest
      prefix of whole records, each at its true offset. */
  lemma {:induction false} ScanTorn<T>(
      read: Reader<T>, write: T -> Bytes, xs: seq<T>, n: nat, off: nat, acc: seq<Located<T>>)
    requires Stable(read) && forall x :: x in xs ==> Writes(read, write, x)
    requires n <= |WriteAll(write, xs)|
    ensures Scan(read, WriteAll(write, xs)[..n], off, acc)
         == Layout(write, xs[..WholeWithin(write, xs, n)], off, acc)
    decreases |xs|
  {
    hide Scan, Layout;
    if xs == [] {
      EmptyCut(read, write, off, acc);
    } else {
      assert xs[0] in xs;
      CutStep(read, write, xs, n, off, acc);
      var size := |write(xs[0])|;
      if n < size {
        EmptyCut(read, write, off, acc);
      } else {
        LayoutStep(write, xs, WholeWithin(write, xs, n), off, acc);
        ScanTorn(read, write, xs[1..], n - size, off + size, acc + [Located(off, xs[0])]);
      }
    }
  }
}
