/** The overwriting byte ring (framework/src/fwk_ring.c), refining a bounded sequence of bytes. */
module Ring {
  import opened Arithmetic

  type Byte = b: int | 0 <= b < 256

  /** The last `n` elements of `s`, or all of them. */
  function Last<T>(s: seq<T>, n: nat): (r: seq<T>)
    ensures |r| == if |s| <= n then |s| else n
  {
    if |s| <= n then s else s[|s| - n..]
  }

  /** `dst` with `src` copied over it at `at`. */
  function Spliced(dst: seq<Byte>, at: nat, src: seq<Byte>): (r: seq<Byte>)
    requires at + |src| <= |dst|
    ensures |r| == |dst|
  {
    dst[..at] + src + dst[at + |src|..]
  }

  lemma SplicedAt(dst: seq<Byte>, at: nat, src: seq<Byte>, i: nat)
    requires at + |src| <= |dst| && i < |dst|
    ensures Spliced(dst, at, src)[i] == if at <= i < at + |src| then src[i - at] else dst[i]
  {
  }

  /** Two adjacent copies are one. */
  lemma SplicedTwice(dst: seq<Byte>, a: seq<Byte>, b: seq<Byte>)
    requires |a| + |b| <= |dst|
    ensures Spliced(Spliced(dst, 0, a), |a|, b) == Spliced(dst, 0, a + b)
  {
    var x, y := Spliced(Spliced(dst, 0, a), |a|, b), Spliced(dst, 0, a + b);
    forall i | 0 <= i < |dst|
      ensures x[i] == y[i]
    {
      SplicedAt(Spliced(dst, 0, a), |a|, b, i);
      SplicedAt(dst, 0, a, i);
      SplicedAt(dst, 0, a + b, i);
    }
  }

  method MemCpy(dst: array<Byte>, at: nat, src: seq<Byte>)
    requires at + |src| <= dst.Length
    modifies dst
    ensures dst[..] == Spliced(old(dst[..]), at, src)
  {
    forall i | 0 <= i < |src| {
      dst[at + i] := src[i];
    }
  }

  method CopyBoth(dst: array<Byte>, a: seq<Byte>, b: seq<Byte>)
    requires |a| + |b| <= dst.Length
    modifies dst
    ensures dst[..] == Spliced(old(dst[..]), 0, a + b)
  {
    SplicedTwice(dst[..], a, b);
    MemCpy(dst, 0, a);
    MemCpy(dst, |a|, b);
  }

  // ---------- the storage as a value ----------

  /** The bytes held between `head` and `tail`. */
  function Held(store: seq<Byte>, head: nat, tail: nat, full: bool): seq<Byte>
    requires head < |store| && tail < |store|
  {
    if tail >= head && !full then store[head..tail] else store[head..] + store[..tail]
  }

  /** The storage with `data` written from `tail` on, wrapping at the end. */
  function Written(store: seq<Byte>, tail: nat, data: seq<Byte>): (r: seq<Byte>)
    requires tail < |store| && |data| <= |store|
    ensures |r| == |store|
  {
    if tail + |data| < |store| then Spliced(store, tail, data)
    else
      var chunk := |store| - tail;
      Spliced(Spliced(store, tail, data[..chunk]), 0, data[chunk..])
  }

  function Wrap(cap: nat, i: nat): nat {
    if i < cap then i else i - cap
  }

  /** Element `i` of `c` is the byte `i` positions after `head`, for every element. */
  ghost predicate Holding(store: seq<Byte>, head: nat, c: seq<Byte>) {
    |c| <= |store| && forall i: nat {:trigger c[i]} :: i < |c| ==> ByteAt(store, head, i, c[i])
  }

  ghost predicate ByteAt(store: seq<Byte>, from: nat, i: nat, b: Byte) {
    Wrap(|store|, from + i) < |store| && store[Wrap(|store|, from + i)] == b
  }

  /** The held bytes are those from the head on, and the tail is where they end. */
  lemma HeldHolds(store: seq<Byte>, head: nat, tail: nat, full: bool)
    requires head < |store| && tail < |store| && (full ==> head == tail)
    ensures Holding(store, head, Held(store, head, tail, full))
    ensures tail == Wrap(|store|, head + |Held(store, head, tail, full)|)
    ensures (|Held(store, head, tail, full)| == |store| <==> full)
  {
  }

  lemma WrittenAt(store: seq<Byte>, tail: nat, data: seq<Byte>, i: nat)
    requires tail < |store| && |data| <= |store| && i < |store|
    ensures Wrap(|store|, tail + i) < |store|
    ensures Written(store, tail, data)[Wrap(|store|, tail + i)] ==
      if i < |data| then data[i] else store[Wrap(|store|, tail + i)]
  {
    if tail + |data| < |store| {
      SplicedAt(store, tail, data, Wrap(|store|, tail + i));
    } else {
      var chunk := |store| - tail;
      SplicedAt(Spliced(store, tail, data[..chunk]), 0, data[chunk..], Wrap(|store|, tail + i));
      SplicedAt(store, tail, data[..chunk], Wrap(|store|, tail + i));
      SplitAt(data, chunk, i);
    }
  }

  lemma SplitAt(data: seq<Byte>, chunk: nat, i: nat)
    requires chunk <= |data|
    ensures i < chunk ==> data[..chunk][i] == data[i]
    ensures chunk <= i < |data| ==> data[chunk..][i - chunk] == data[i]
  {
  }

  /** What writing leaves `j` positions after the tail: the data, and the old bytes after it. */
  ghost predicate Stored(store': seq<Byte>, store: seq<Byte>, tail: nat, data: seq<Byte>, j: nat) {
    && Wrap(|store|, tail + j) < |store| == |store'|
    && store'[Wrap(|store|, tail + j)] == if j < |data| then data[j] else store[Wrap(|store|, tail + j)]
  }

  ghost predicate AllStored(store': seq<Byte>, store: seq<Byte>, tail: nat, data: seq<Byte>) {
    |store'| == |store| && forall j: nat :: j < |store| ==> Stored(store', store, tail, data, j)
  }

  lemma WrittenStores(store: seq<Byte>, tail: nat, data: seq<Byte>)
    requires tail < |store| && |data| <= |store|
    ensures AllStored(Written(store, tail, data), store, tail, data)
  {
    forall j: nat | j < |store|
      ensures Stored(Written(store, tail, data), store, tail, data, j)
    {
      WrittenAt(store, tail, data, j);
    }
  }

  lemma StoredFits(store': seq<Byte>, store: seq<Byte>, head: nat, tail: nat, data: seq<Byte>,
      c: seq<Byte>, c': seq<Byte>)
    requires head < |store| && |c'| == |c| + |data| <= |store| && |c| < |store| && tail == Wrap(|store|, head + |c|)
    requires AllStored(store', store, tail, data) && Holding(store, head, c) && Holding(store', head, c')
    ensures c' == c + data
  {
    forall i: nat | i < |c'|
      ensures c'[i] == (c + data)[i]
    {
      if i < |c| {
        assert Stored(store', store, tail, data, |store| - |c| + i);
        assert ByteAt(store, head, i, c[i]);
      } else {
        assert Stored(store', store, tail, data, i - |c|);
      }
    }
  }

  /** Room for all of it: the data follows the content. */
  lemma PushFits(store: seq<Byte>, head: nat, tail: nat, data: seq<Byte>)
    requires head < |store| && tail < |store|
    requires |Held(store, head, tail, false)| + |data| < |store|
    ensures Held(Written(store, tail, data), head, Wrap(|store|, tail + |data|), false) ==
      Held(store, head, tail, false) + data
  {
    var store', tail' := Written(store, tail, data), Wrap(|store|, tail + |data|);
    FittedLength(store, head, tail, data);
    HeldHolds(store, head, tail, false);
    HeldHolds(store', head, tail', false);
    WrittenStores(store, tail, data);
    StoredFits(store', store, head, tail, data, Held(store, head, tail, false), Held(store', head, tail', false));
  }

  lemma FittedLength(store: seq<Byte>, head: nat, tail: nat, data: seq<Byte>)
    requires head < |store| && tail < |store|
    requires |Held(store, head, tail, false)| + |data| < |store|
    ensures |Held(Written(store, tail, data), head, Wrap(|store|, tail + |data|), false)| ==
      |Held(store, head, tail, false)| + |data|
  {
  }

  lemma StoredOver(store': seq<Byte>, store: seq<Byte>, head: nat, tail: nat, data: seq<Byte>,
      c: seq<Byte>, c': seq<Byte>)
    requires head < |store| && |data| <= |store| <= |c| + |data| && |c'| == |store|
    requires |c| <= |store| && tail == Wrap(|store|, head + |c|)
    requires AllStored(store', store, tail, data) && Holding(store, head, c)
    requires Holding(store', Wrap(|store|, tail + |data|), c')
    ensures c' == Last(c + data, |store|)
  {
    var last := Last(c + data, |store|);
    forall i: nat | i < |store|
      ensures c'[i] == last[i]
    {
      var k := |c| + |data| - |store| + i;
      assert last[i] == (c + data)[k];
      if k < |c| {
        assert Stored(store', store, tail, data, |data| + i);
        assert ByteAt(store, head, k, c[k]);
      } else {
        assert Stored(store', store, tail, data, k - |c|);
      }
    }
  }

  /** No room: the ring is full of the last bytes of content and data. */
  lemma PushOverwrites(store: seq<Byte>, head: nat, tail: nat, full: bool, data: seq<Byte>)
    requires head < |store| && tail < |store| && |data| <= |store| && (full ==> head == tail)
    requires |Held(store, head, tail, full)| + |data| >= |store|
    ensures Held(Written(store, tail, data), Wrap(|store|, tail + |data|), Wrap(|store|, tail + |data|), true) ==
      Last(Held(store, head, tail, full) + data, |store|)
  {
    var store', tail' := Written(store, tail, data), Wrap(|store|, tail + |data|);
    HeldHolds(store, head, tail, full);
    HeldHolds(store', tail', tail', true);
    WrittenStores(store, tail, data);
    StoredOver(store', store, head, tail, data, Held(store, head, tail, full), Held(store', tail', tail', true));
  }

  /** The content after a push of at most the capacity. */
  lemma PushHeld(store: seq<Byte>, head: nat, tail: nat, full: bool, data: seq<Byte>)
    requires head < |store| && tail < |store| && |data| <= |store| && (full ==> head == tail)
    ensures var tail' := Wrap(|store|, tail + |data|);
      var full' := |Held(store, head, tail, full)| + |data| >= |store|;
      tail' < |store| && Last(Held(store, head, tail, full) + data, |store|) ==
        Held(Written(store, tail, data), if full' then tail' else head, tail', full')
  {
    if |Held(store, head, tail, full)| + |data| >= |store| {
      PushOverwrites(store, head, tail, full, data);
    } else {
      PushFits(store, head, tail, data);
    }
  }

  /** Only the trailing bytes of long data matter. */
  lemma LastOfLast(c: seq<Byte>, buffer: seq<Byte>, cap: nat)
    ensures Last(c + Last(buffer, cap), cap) == Last(c + buffer, cap)
  {
    if |buffer| > cap {
      var tail := Last(buffer, cap);
      assert |tail| == cap;
      assert Last(c + tail, cap) == tail by {
        assert (c + tail)[|c|..] == tail;
      }
      assert (c + buffer)[|c| + |buffer| - cap..] == tail;
    }
  }

  lemma PopHeldLength(store: seq<Byte>, head: nat, tail: nat, full: bool, n: nat)
    requires head < |store| && tail < |store| && (full ==> head == tail)
    requires 0 < n <= |Held(store, head, tail, full)|
    ensures |Held(store, Wrap(|store|, head + n), tail, false)| == |Held(store, head, tail, full)| - n
  {
  }

  /** Advancing the head drops the oldest bytes. */
  lemma PopHeld(store: seq<Byte>, head: nat, tail: nat, full: bool, n: nat)
    requires head < |store| && tail < |store| && (full ==> head == tail)
    requires 0 < n <= |Held(store, head, tail, full)|
    ensures Held(store, Wrap(|store|, head + n), tail, false) == Held(store, head, tail, full)[n..]
  {
    PopHeldLength(store, head, tail, full, n);
    HeldHolds(store, head, tail, full);
    HeldHolds(store, Wrap(|store|, head + n), tail, false);
    HeldFrom(store, head, n, Held(store, head, tail, full), Held(store, Wrap(|store|, head + n), tail, false));
  }

  lemma HeldFrom(store: seq<Byte>, head: nat, n: nat, c: seq<Byte>, c': seq<Byte>)
    requires head < |store| && |c| == n + |c'| && Holding(store, head, c)
    requires Holding(store, Wrap(|store|, head + n), c')
    ensures c' == c[n..]
  {
    forall i: nat | i < |c'|
      ensures c[n..][i] == c'[i]
    {
      assert ByteAt(store, head, n + i, c[n + i]);
      assert ByteAt(store, Wrap(|store|, head + n), i, c'[i]);
    }
  }

  /** The two pieces of a split copy out of the ring. */
  lemma PeekHeld(store: seq<Byte>, head: nat, tail: nat, full: bool, n: nat)
    requires head < |store| && tail < |store| && (full ==> head == tail)
    requires 0 < n <= |Held(store, head, tail, full)|
    ensures Wrap(|store|, head + n) > head ==>
      head + n <= |store| && Held(store, head, tail, full)[..n] == store[head..head + n]
    ensures Wrap(|store|, head + n) <= head ==>
      |store| - head <= n && Held(store, head, tail, full)[..n] == store[head..] + store[..n - (|store| - head)]
  {
  }

  class FwkRing {
    const storage: array<Byte>
    var head: nat
    var tail: nat
    var full: bool
    /** The bytes held, oldest first. */
    ghost var contents: seq<Byte>

    ghost predicate Valid()
      reads this, storage
    {
      && head < storage.Length && tail < storage.Length && (full ==> head == tail)
      && contents == Held(storage[..], head, tail, full) && |contents| <= storage.Length
    }

    constructor (storage: array<Byte>)
      requires storage.Length > 0
      ensures Valid() && this.storage == storage && contents == []
    {
      this.storage, head, tail, full, contents := storage, 0, 0, false, [];
    }

    method Clear()
      requires storage.Length > 0
      modifies this
      ensures Valid() && contents == []
    {
      head, tail, full, contents := 0, 0, false, [];
    }

    /** An index brought back into the storage. */
    method Offset(i: nat) returns (r: nat)
      requires storage.Length > 0 && i < 2 * storage.Length
      ensures r == Wrap(storage.Length, i)
    {
      if i < storage.Length {
        ModuloUnique(i, storage.Length, 0);
      } else {
        ModuloUnique(i - storage.Length, storage.Length, 1);
      }
      r := i % storage.Length;
    }

    method GetCapacity() returns (n: nat)
      ensures n == storage.Length
    {
      n := storage.Length;
    }

    method GetLength() returns (n: nat)
      requires Valid()
      ensures n == |contents|
    {
      if tail >= head && !full {
        n := tail - head;
      } else {
        n := storage.Length - head + tail;
      }
    }

    method GetFree() returns (n: nat)
      requires Valid()
      ensures n == storage.Length - |contents|
    {
      var length := GetLength();
      n := storage.Length - length;
    }

    method IsFull() returns (r: bool)
      requires Valid()
      ensures r <==> |contents| == storage.Length
    {
      r := full;
    }

    method IsEmpty() returns (r: bool)
      requires Valid()
      ensures r <==> contents == []
    {
      r := head == tail && !full;
    }

    /** The split copy of a peek. */
    method CopyOut(buffer: array<Byte>, n: nat)
      requires Valid() && 0 < n <= |contents| && n <= buffer.Length && buffer != storage
      modifies buffer
      ensures buffer[..] == Spliced(old(buffer[..]), 0, contents[..n])
    {
      var store := storage[..];
      PeekHeld(store, head, tail, full, n);
      var end := Offset(head + n);
      if end > head {
        MemCpy(buffer, 0, store[head..head + n]);
      } else {
        CopyBoth(buffer, store[head..], store[..n - (storage.Length - head)]);
      }
    }

    /** Copies the oldest bytes into `buffer`, at most `size` of them. */
    method Peek(buffer: array<Byte>, size: nat) returns (n: nat)
      requires Valid() && size <= buffer.Length && buffer != storage
      modifies buffer
      ensures n == (if size <= |contents| then size else |contents|)
      ensures n <= |contents| && buffer[..] == Spliced(old(buffer[..]), 0, contents[..n])
    {
      var length := GetLength();
      n := if size < length then size else length;
      if n == 0 {
        return;
      }
      CopyOut(buffer, n);
    }

    /** Drops the `n` oldest bytes. */
    method Drop(n: nat)
      requires Valid() && n <= |contents|
      modifies `head, `full, `contents
      ensures Valid() && contents == old(contents)[n..]
    {
      if n > 0 {
        PopHeld(storage[..], head, tail, full, n);
        head := Offset(head + n);
        full := false;
        contents := contents[n..];
      }
    }

    /** Drops the oldest bytes, at most `size` of them, copying them into `buffer` if there is one. */
    method Pop(buffer: array?<Byte>, size: nat) returns (n: nat)
      requires Valid() && (buffer != null ==> size <= buffer.Length && buffer != storage)
      modifies `head, `full, `contents, buffer
      ensures Valid() && n == (if size <= |old(contents)| then size else |old(contents)|)
      ensures contents == old(contents)[n..]
      ensures buffer != null ==> buffer[..] == Spliced(old(buffer[..]), 0, old(contents)[..n])
    {
      if buffer == null {
        var length := GetLength();
        n := if size < length then size else length;
      } else {
        n := Peek(buffer, size);
      }
      Drop(n);
    }

    /** Appends `buffer`; the oldest bytes give way, and only the trailing bytes of a long buffer are kept. */
    method Push(buffer: seq<Byte>) returns (n: nat)
      requires Valid()
      modifies `head, `tail, `full, `contents, storage
      ensures Valid() && n == (if |buffer| <= storage.Length then |buffer| else storage.Length)
      ensures contents == Last(old(contents) + buffer, storage.Length)
    {
      if |buffer| == 0 {
        return 0;
      }
      var data := Last(buffer, storage.Length);
      n := |data|;
      LastOfLast(contents, buffer, storage.Length);
      PushTrimmed(data);
    }

    /** The push of what is left of the data. */
    method PushTrimmed(data: seq<Byte>)
      requires Valid() && 0 < |data| <= storage.Length
      modifies `head, `tail, `full, `contents, storage
      ensures Valid() && contents == Last(old(contents) + data, storage.Length)
    {
      var remaining := GetFree();
      PushHeld(storage[..], head, tail, full, data);
      WriteWrapped(data);
      tail := Offset(tail + |data|);
      if |data| >= remaining {
        head := tail;
        full := true;
      }
      contents := Last(contents + data, storage.Length);
    }

    /** The split copy of a push. */
    method WriteWrapped(data: seq<Byte>)
      requires tail < storage.Length && 0 < |data| <= storage.Length
      modifies storage
      ensures storage[..] == Written(old(storage[..]), tail, data)
    {
      var end := Offset(tail + |data|);
      if end > tail {
        MemCpy(storage, tail, data);
      } else {
        var chunk := storage.Length - tail;
        MemCpy(storage, tail, data[..chunk]);
        MemCpy(storage, 0, data[chunk..]);
      }
    }
  }
}
