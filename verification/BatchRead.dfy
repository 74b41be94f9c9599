/** One worker of db.go's BatchGet, which serves request after request with one reused read buffer
    and hands out an uncompressed value as a slice of that buffer. */
module BatchRead {
  import opened Bytes
  import opened Codec
  import S = Store

  type Key = S.Key

  const BUFFER_SIZE := 262144

  // ---- one worker, and the memory its results live in ----

  /** A result is memory of its own, or the first bytes of the worker's buffer. */
  datatype Slot = Own(data: Bytes) | Shared(len: nat)

  datatype Worker = Worker(buffer: Bytes, results: map<Key, Slot>)

  function ValueOf(w: Worker, slot: Slot): Bytes {
    match slot
    case Own(data) => data
    case Shared(len) => if len <= |w.buffer| then w.buffer[..len] else []
  }

  /** The bytes a request reads. */
  function Raw(files: S.Files, kd: S.KeyDir): Bytes {
    match S.ReadAt(files, kd) case Some(data) => data case None => []
  }

  /** Reading fills the front of the buffer; a value longer than the buffer gets one of its own. */
  function Filled(buffer: Bytes, data: Bytes): (b: Bytes)
    ensures |b| == |buffer|
  {
    if |data| <= |buffer| then data + buffer[|data|..] else buffer
  }

  /** A read or decompression error gives an empty result. */
  function SlotFor(c: Codec, files: S.Files, kd: S.KeyDir, capacity: nat): Slot {
    match S.ReadAt(files, kd)
    case None => Own([])
    case Some(data) =>
      if Compressing(kd.compression) then
        match c.decode(kd.compression, data) case Some(v) => Own(v) case None => Own([])
      else if |data| <= capacity then Shared(|data|)
      else Own(data)
  }

  function Serve(c: Codec, files: S.Files, index: S.Index, w: Worker, k: Key): Worker
    requires k in index
  {
    var data := Raw(files, index[k]);
    Worker(Filled(w.buffer, data), w.results[k := SlotFor(c, files, index[k], |w.buffer|)])
  }

  function ServeAll(c: Codec, files: S.Files, index: S.Index, w: Worker, ks: seq<Key>): Worker
    requires forall k :: k in ks ==> k in index
  {
    if ks == [] then w
    else
      assert ks[|ks| - 1] in ks;
      Serve(c, files, index, ServeAll(c, files, index, w, ks[..|ks| - 1]), ks[|ks| - 1])
  }

  /** What the key's result should be. */
  function Wanted(c: Codec, files: S.Files, kd: S.KeyDir): Bytes {
    match S.ReadValue(c, files, kd) case Some(v) => v case None => []
  }

  predicate Right(c: Codec, files: S.Files, index: S.Index, w: Worker, k: Key)
    requires k in index
  {
    k in w.results && ValueOf(w, w.results[k]) == Wanted(c, files, index[k])
  }

  /** Handed out as a slice of the buffer. */
  predicate Borrows(files: S.Files, kd: S.KeyDir, capacity: nat) {
    S.ReadAt(files, kd).Some? && !Compressing(kd.compression) && |Raw(files, kd)| <= capacity
  }

  // ---- what the buffer ends up holding ----

  /** Byte p of the last value read into the buffer that reaches that far. */
  function Top(files: S.Files, index: S.Index, ks: seq<Key>, capacity: nat, p: nat): Option<Byte>
    requires forall k :: k in ks ==> k in index
  {
    if ks == [] then None
    else
      assert ks[|ks| - 1] in ks;
      var data := Raw(files, index[ks[|ks| - 1]]);
      if p < |data| <= capacity then Some(data[p]) else Top(files, index, ks[..|ks| - 1], capacity, p)
  }

  lemma {:induction false} BufferIsTop(c: Codec, files: S.Files, index: S.Index, w: Worker, ks: seq<Key>, p: nat)
    requires (forall k :: k in ks ==> k in index) && p < |w.buffer|
    ensures var b := ServeAll(c, files, index, w, ks).buffer;
      && |b| == |w.buffer|
      && match Top(files, index, ks, |w.buffer|, p) case Some(x) => b[p] == x case None => b[p] == w.buffer[p]
  {
    if ks != [] {
      assert ks[|ks| - 1] in ks;
      BufferIsTop(c, files, index, w, ks[..|ks| - 1], p);
    }
  }

  lemma {:induction false} ServedSlots(c: Codec, files: S.Files, index: S.Index, w: Worker, ks: seq<Key>, k: Key)
    requires (forall j :: j in ks ==> j in index) && k in ks
    ensures var x := ServeAll(c, files, index, w, ks);
      |x.buffer| == |w.buffer| && k in x.results
      && x.results[k] == SlotFor(c, files, index[k], |w.buffer|)
  {
    var init, last := ks[..|ks| - 1], ks[|ks| - 1];
    assert ks == init + [last];
    ServedSizes(c, files, index, w, init);
    if k != last {
      ServedSlots(c, files, index, w, init, k);
    }
  }

  lemma {:induction false} ServedSizes(c: Codec, files: S.Files, index: S.Index, w: Worker, ks: seq<Key>)
    requires forall k :: k in ks ==> k in index
    ensures |ServeAll(c, files, index, w, ks).buffer| == |w.buffer|
  {
    if ks != [] {
      assert ks[|ks| - 1] in ks;
      ServedSizes(c, files, index, w, ks[..|ks| - 1]);
    }
  }

  /** The key's bytes are still in the buffer when all requests are served. */
  ghost predicate Survives(files: S.Files, index: S.Index, ks: seq<Key>, capacity: nat, k: Key)
    requires k in index && forall j :: j in ks ==> j in index
  {
    forall p: nat :: p < |Raw(files, index[k])| ==> Top(files, index, ks, capacity, p) == Some(Raw(files, index[k])[p])
  }

  /** Whatever keys one worker serves in whatever order, duplicates included: a result is right if
      and only if it was decompressed into memory of its own, or no value served later overwrote
      its bytes in the shared buffer with different ones. */
  lemma ServedRightIff(c: Codec, files: S.Files, index: S.Index, w: Worker, ks: seq<Key>, k: Key)
    requires (forall j :: j in ks ==> j in index) && k in ks
    ensures Right(c, files, index, ServeAll(c, files, index, w, ks), k)
      <==> !Borrows(files, index[k], |w.buffer|) || Survives(files, index, ks, |w.buffer|, k)
  {
    var x, data := ServeAll(c, files, index, w, ks), Raw(files, index[k]);
    ServedSlots(c, files, index, w, ks, k);
    if Borrows(files, index[k], |w.buffer|) {
      forall p: nat | p < |data|
        ensures x.buffer[p] == data[p] <==> Top(files, index, ks, |w.buffer|, p) == Some(data[p])
      {
        BufferIsTop(c, files, index, w, ks, p);
        TopSome(files, index, ks, |w.buffer|, k, p);
      }
      assert x.buffer[..|data|] == data <==> forall p: nat :: p < |data| ==> x.buffer[p] == data[p];
    }
  }

  lemma {:induction false} TopSome(files: S.Files, index: S.Index, ks: seq<Key>, capacity: nat, k: Key, p: nat)
    requires (forall j :: j in ks ==> j in index) && k in ks && p < |Raw(files, index[k])| <= capacity
    ensures Top(files, index, ks, capacity, p).Some?
  {
    var init, last := ks[..|ks| - 1], ks[|ks| - 1];
    assert ks == init + [last];
    if k != last {
      TopSome(files, index, init, capacity, k, p);
    }
  }
}
