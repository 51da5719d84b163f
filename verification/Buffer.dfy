/** lib_network/src/memory: the byte buffer between a socket and a protocol, and
    the pool its stores come from. */
module Memory {
  import opened Bytes

  const MAX_POOLED := 100_000

  /** Pool of byte vectors. Only a pooled vector's capacity matters to its next
      owner, because Acquire clears it. */
  class BufferPool {
    var pool: seq<nat>

    ghost predicate Valid()
      reads this
    {
      |pool| <= MAX_POOLED
    }

    constructor ()
      ensures Valid() && pool == []
    {
      pool := [];
    }

    /** Pops the newest pooled vector whenever there is one. Only if that vector
        is large enough is it handed out, and then with size 0, not `size`. */
    method Acquire(size: nat) returns (store: array<byte>)
      requires Valid()
      modifies this
      ensures Valid() && fresh(store)
      ensures pool == if old(pool) == [] then [] else old(pool)[..|old(pool)| - 1]
      ensures store.Length == if old(pool) != [] && old(pool)[|old(pool)| - 1] >= size then 0 else size
    {
      if pool != [] {
        var capacity := pool[|pool| - 1];
        pool := pool[..|pool| - 1];
        if capacity >= size {
          store := new byte[0];
          return;
        }
      }
      store := new byte[size](_ => 0);
    }

    method Release(capacity: nat)
      requires Valid()
      modifies this
      ensures Valid()
      ensures pool == if |old(pool)| < MAX_POOLED then old(pool) + [capacity] else old(pool)
    {
      if |pool| < MAX_POOLED {
        pool := pool + [capacity];
      }
    }
  }

  /** The first place where a carriage return is followed by a line feed, or |s|. */
  function CrlfAt(s: bytes): (i: nat)
    ensures i <= |s|
    ensures i < |s| ==> i + 1 < |s| && s[i] == 13 && s[i + 1] == 10
    ensures forall j :: 0 <= j < i && j + 1 < |s| ==> !(s[j] == 13 && s[j + 1] == 10)
  {
    if |s| < 2 then |s|
    else if s[0] == 13 && s[1] == 10 then 0
    else 1 + CrlfAt(s[1..])
  }

  class Buffer {
    var store: array<byte>
    var reader: nat
    var writer: nat

    ghost var initialSize: nat
    /** The most bytes the buffer has ever been asked to hold at once. */
    ghost var peak: nat

    /** Includes the space bound: the store never outgrows both its initial
        size and twice the peak load. */
    ghost predicate Valid()
      reads this, store
    {
      && reader <= writer <= store.Length
      && writer - reader <= peak
      && store.Length <= Max(initialSize, 2 * peak)
    }

    ghost function Contents(): bytes
      requires Valid()
      reads this, store
    {
      store[reader..writer]
    }

    constructor (pool: BufferPool, size: nat)
      requires pool.Valid()
      modifies pool
      ensures pool.Valid()
      ensures Valid() && fresh(store) && Contents() == []
      ensures store.Length == initialSize <= size && peak == 0
    {
      var s := pool.Acquire(size);
      store := s;
      reader, writer := 0, 0;
      initialSize, peak := s.Length, 0;
    }

    function ReadableBytes(): (n: int)
      requires Valid()
      reads this, store
      ensures n == |Contents()|
    {
      writer - reader
    }

    function WritableBytes(): (n: int)
      reads this, store
    {
      store.Length - writer
    }

    function Peek(): (s: bytes)
      requires Valid()
      reads this, store
      ensures s == Contents()
    {
      store[reader..writer]
    }

    /** Consumes `len` bytes; emptying the buffer rewinds both indices. */
    method Retrieve(len: nat)
      requires Valid()
      requires len <= |Contents()|
      modifies `reader, `writer
      ensures Valid()
      ensures Contents() == old(Contents())[len..]
      ensures Contents() == [] ==> reader == writer == 0
    {
      if len < ReadableBytes() {
        reader := reader + len;
      } else {
        RetrieveAll();
      }
    }

    method RetrieveAll()
      requires Valid()
      modifies `reader, `writer
      ensures Valid()
      ensures Contents() == [] && reader == writer == 0
    {
      reader, writer := 0, 0;
    }

    method Append(data: bytes)
      requires Valid()
      modifies this, store
      ensures Valid()
      ensures store == old(store) || fresh(store)
      ensures Contents() == old(Contents()) + data
      ensures peak == Max(old(peak), |Contents()|) && initialSize == old(initialSize)
    {
      EnsureWritableBytes(|data|);
      CopyIn(data);
      HasWritten(|data|);
    }

    /** std::memcpy to BeginWrite. */
    method CopyIn(data: bytes)
      requires Valid() && WritableBytes() >= |data|
      modifies store
      ensures Valid() && Contents() == old(Contents())
      ensures store[writer..writer + |data|] == data
    {
      forall i | 0 <= i < |data| {
        store[writer + i] := data[i];
      }
      assert forall j :: reader <= j < writer ==> store[j] == old(store[j]);
    }

    method HasWritten(len: nat)
      requires Valid() && WritableBytes() >= len && |Contents()| + len <= peak
      modifies `writer
      ensures Valid() && writer == old(writer) + len
      ensures Contents() == old(Contents()) + old(store[writer..writer + len])
    {
      ghost var all, w := store[..], writer;
      writer := writer + len;
      assert store[..] == all;
      assert all[reader..writer] == all[reader..w] + all[w..writer];
    }

    method EnsureWritableBytes(len: nat)
      requires Valid()
      modifies this, store
      ensures Valid()
      ensures store == old(store) || fresh(store)
      ensures Contents() == old(Contents())
      ensures WritableBytes() >= len
      ensures peak == Max(old(peak), |Contents()| + len) && initialSize == old(initialSize)
    {
      peak := Max(peak, writer - reader + len);
      if WritableBytes() < len {
        MakeSpace(len);
      }
    }

    /** Either grows the store or slides the readable bytes to its front. */
    method MakeSpace(len: nat)
      requires Valid()
      requires WritableBytes() < len && |Contents()| + len <= peak
      modifies this, store
      ensures Valid()
      ensures store == old(store) || fresh(store)
      ensures Contents() == old(Contents())
      ensures WritableBytes() >= len
      ensures peak == old(peak) && initialSize == old(initialSize)
    {
      if WritableBytes() + reader < len {
        Resize(writer + len);
      } else {
        Compact();
      }
    }

    /** std::vector::resize to a larger size: the elements stay, zeros follow. */
    method Resize(size: nat)
      requires Valid()
      requires store.Length <= size <= 2 * peak
      modifies this
      ensures Valid() && fresh(store) && store.Length == size
      ensures Contents() == old(Contents()) && reader == old(reader) && writer == old(writer)
      ensures peak == old(peak) && initialSize == old(initialSize)
    {
      var was := store[..];
      var grown := new byte[size];
      forall i | 0 <= i < size {
        grown[i] := if i < |was| then was[i] else 0;
      }
      store := grown;
      assert forall j :: reader <= j < writer ==> store[j] == was[j];
    }

    /** std::copy to the left, in place: source and target may overlap. */
    method Compact()
      requires Valid()
      modifies `reader, `writer, store
      ensures Valid() && reader == 0
      ensures Contents() == old(Contents())
    {
      ghost var before := Contents();
      var readable := writer - reader;
      for i := 0 to readable
        invariant forall j :: 0 <= j < i ==> store[j] == before[j]
        invariant forall j :: reader + i <= j < writer ==> store[j] == before[j - reader]
        modifies store
      {
        store[i] := store[reader + i];
      }
      reader, writer := 0, readable;
    }

    /** std::search for the line end. */
    method FindCRLF() returns (i: nat)
      requires Valid()
      ensures i == CrlfAt(Contents())
    {
      var s := Peek();
      i := 0;
      while i < |s| && !(i + 1 < |s| && s[i] == 13 && s[i + 1] == 10)
        invariant i <= |s|
        invariant CrlfAt(s) == i + CrlfAt(s[i..])
      {
        assert s[i..][1..] == s[i + 1..];
        i := i + 1;
      }
    }
  }
}
