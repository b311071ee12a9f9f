/** The byte FIFO of com/ringbuffer.c and com/ringbuffer_ext.c, on a real array. */
module RingBuffers {
  import opened Bytes

  /** The n bytes met by walking a ring of storage from index r. */
  function Walk(ring: seq<byte>, r: nat, n: nat): (s: seq<byte>)
    requires r < |ring| && n <= |ring|
    ensures |s| == n
    ensures forall k :: 0 <= k < n ==> s[k] == ring[Wrap(r + k, |ring|)]
  {
    if r + n <= |ring| then ring[r..r + n] else ring[r..] + ring[..r + n - |ring|]
  }

  lemma NothingThere(ring: seq<byte>, r: nat)
    requires r < |ring|
    ensures Walk(ring, r, 0) == []
  {
  }

  lemma SplitBefore(ring: seq<byte>, r: nat, n: nat, k: nat)
    requires r < |ring| && k <= n <= |ring| && r + k < |ring|
    ensures Walk(ring, r, n) == Walk(ring, r, k) + Walk(ring, r + k, n - k)
  {
    if r + n <= |ring| {
      assert ring[r..r + n] == ring[r..r + k] + ring[r + k..r + n];
    } else {
      assert ring[r..] == ring[r..r + k] + ring[r + k..];
    }
  }

  lemma SplitBehind(ring: seq<byte>, r: nat, n: nat, k: nat)
    requires r < |ring| && k <= n <= |ring| <= r + k
    ensures Walk(ring, r, n) == Walk(ring, r, k) + Walk(ring, r + k - |ring|, n - k)
  {
    var i, j := r + k - |ring|, r + n - |ring|;
    assert ring[..j] == ring[..i] + ring[i..j];
  }

  /** A walk splits at any point into the walk before it and the walk after it. */
  lemma WalkSplit(ring: seq<byte>, r: nat, n: nat, k: nat)
    requires r < |ring| && k <= n <= |ring|
    ensures Walk(ring, r, n) == Walk(ring, r, k) + Walk(ring, (r + k) % |ring|, n - k)
  {
    ModIsWrap(r + k, |ring|);
    hide Walk;
    if r + k < |ring| {
      SplitBefore(ring, r, n, k);
    } else {
      SplitBehind(ring, r, n, k);
    }
  }

  /** Storage now differs from was only in that dat lies in the places from at on. */
  ghost predicate Stored(was: seq<byte>, now: seq<byte>, at: nat, dat: seq<byte>) {
    && |now| == |was|
    && at < |was|
    && |dat| <= |was|
    && (forall k :: 0 <= k < |dat| ==> now[Wrap(at + k, |was|)] == dat[k])
    && (forall j :: 0 <= j < |was| && !(at <= j < at + |dat|) && at + |dat| - |was| <= j ==> now[j] == was[j])
  }

  lemma WalkAppend(was: seq<byte>, now: seq<byte>, r: nat, n: nat, dat: seq<byte>)
    requires r < |was| && n + |dat| <= |was|
    requires Stored(was, now, Wrap(r + n, |was|), dat)
    ensures Walk(now, r, n + |dat|) == Walk(was, r, n) + dat
  {
    var before, after := Walk(was, r, n), Walk(now, r, n + |dat|);
    forall k | 0 <= k < n
      ensures after[k] == before[k]
    {
      var j := Wrap(r + k, |was|);
      assert now[j] == was[j];
    }
    forall k | 0 <= k < |dat|
      ensures after[n + k] == dat[k]
    {
      assert Wrap(Wrap(r + n, |was|) + k, |was|) == Wrap(r + n + k, |was|);
    }
  }

  /** A slice of a walk is the walk from the slice's own starting place. */
  lemma WalkSlice(ring: seq<byte>, r: nat, n: nat, start: nat, len: nat)
    requires r < |ring| && start + len <= n <= |ring|
    ensures Walk(ring, r, n)[start..start + len] == Walk(ring, (r + start) % |ring|, len)
  {
    ModIsWrap(r + start, |ring|);
  }

  /** A word read as a signed one. */
  function Signed32(n: u32): int {
    if n < 0x8000_0000 then n else n - 0x1_0000_0000
  }

  /** How many of len bytes the limited append takes, in a ring of size bytes holding used. The limit is
      compared as a signed word, so that one of 2^31 or more lets nothing in. */
  function Taken(len: nat, used: nat, size: nat, limit: u32): nat
    requires used <= size
  {
    if limit == 0 then Min(len, size - used)
    else if Signed32(limit) < used then 0
    else Min(Min(len, limit - used), size - used)
  }

  class RingBuffer {
    const buffer: array<byte>
    var write: nat
    var read: nat
    var dataLen: nat

    ghost predicate Valid()
      reads this
    {
      && 0 < buffer.Length
      && read < buffer.Length
      && dataLen <= buffer.Length
      && write == Wrap(read + dataLen, buffer.Length)
    }

    ghost function Contents(): (s: seq<byte>)
      requires Valid()
      reads this, buffer
      ensures |s| == dataLen
    {
      Walk(buffer[..], read, dataLen)
    }

    constructor (size: nat)
      requires 0 < size
      ensures Valid() && fresh(buffer) && buffer.Length == size && Contents() == []
      ensures read == write == 0
    {
      buffer := new byte[size](_ => 0);
      write, read, dataLen := 0, 0, 0;
    }

    method Reset()
      requires Valid()
      modifies this
      ensures Valid() && Contents() == []
    {
      write, read := 0, 0;
      dataLen := 0;
    }

    /** memcpy into the storage. */
    method Store(at: nat, dat: seq<byte>)
      requires at < buffer.Length && at + |dat| <= buffer.Length
      modifies buffer
      ensures Stored(old(buffer[..]), buffer[..], at, dat)
    {
      forall k | 0 <= k < |dat| {
        buffer[at + k] := dat[k];
      }
    }

    /** memcpy into the storage, in two pieces when dat runs past its end. */
    method StoreWrapped(at: nat, dat: seq<byte>)
      requires at < buffer.Length && |dat| <= buffer.Length
      modifies buffer
      ensures Stored(old(buffer[..]), buffer[..], at, dat)
    {
      var tmplen := buffer.Length - at;
      if |dat| <= tmplen {
        Store(at, dat);
      } else {
        Store(at, dat[..tmplen]);
        Store(0, dat[tmplen..]);
      }
    }

    /** Appends as much of dat as fits and says how much that was. */
    method In(dat: seq<byte>) returns (writelen: nat)
      requires Valid()
      modifies this, buffer
      ensures Valid()
      ensures writelen == Min(|dat|, buffer.Length - old(dataLen))
      ensures Contents() == old(Contents()) + dat[..writelen]
      ensures read == old(read)
    {
      hide Walk, Stored;
      if dataLen == buffer.Length {
        return 0;
      }
      ghost var was := buffer[..];
      var tmplen := buffer.Length - dataLen;
      writelen := if tmplen > |dat| then |dat| else tmplen;
      if write < read {
        Store(write, dat[..writelen]);
      } else {
        StoreWrapped(write, dat[..writelen]);
      }
      WalkAppend(was, buffer[..], read, dataLen, dat[..writelen]);
      ModIsWrap(write + writelen, buffer.Length);
      write := (write + writelen) % buffer.Length;
      dataLen := dataLen + writelen;
    }

    /** The copy shared by both readers: n bytes from index at, in one piece or two. */
    method CopyOut(at: nat, n: nat) returns (outbuf: seq<byte>)
      requires at < buffer.Length && n <= buffer.Length
      ensures outbuf == Walk(buffer[..], at, n)
    {
      var tmplen := buffer.Length - at;
      if n <= tmplen {
        outbuf := buffer[at..at + n];
      } else {
        outbuf := buffer[at..at + tmplen] + buffer[..n - tmplen];
      }
    }

    /** Removes up to len bytes from the front and hands them to the caller. */
    method Out(len: nat) returns (outbuf: seq<byte>)
      requires Valid()
      modifies this
      ensures Valid()
      ensures |outbuf| == Min(len, old(dataLen))
      ensures old(Contents()) == outbuf + Contents()
      ensures read == old((read + Min(len, dataLen)) % buffer.Length)
      ensures write == old(write)
    {
      hide Walk;
      if dataLen == 0 {
        ModIsWrap(read, buffer.Length);
        NothingThere(buffer[..], read);
        return [];
      }
      var readlen := if len > dataLen then dataLen else len;
      WalkSplit(buffer[..], read, dataLen, readlen);
      outbuf := CopyOut(read, readlen);
      ModIsWrap(read + readlen, buffer.Length);
      read := (read + readlen) % buffer.Length;
      dataLen := dataLen - readlen;
    }

    /** Copies up to len bytes starting at offset start of the contents; nothing is removed. */
    method GetData(start: nat, len: nat) returns (outbuf: seq<byte>)
      requires Valid()
      ensures start > dataLen ==> outbuf == []
      ensures start <= dataLen ==> outbuf == Contents()[start..start + Min(len, dataLen - start)]
    {
      hide Walk;
      if dataLen == 0 {
        return [];
      }
      if start > dataLen {
        return [];
      }
      var readlen := if len + start > dataLen then dataLen - start else len;
      ModIsWrap(read + start, buffer.Length);
      var newrd := (read + start) % buffer.Length;
      WalkSlice(buffer[..], read, dataLen, start, readlen);
      outbuf := CopyOut(newrd, readlen);
    }

    /** Like In, but never fills the ring beyond limit bytes; a limit of zero means no limit,
        and one of 2^31 or more, taken as negative, lets nothing in. */
    method InWithLimit(dat: seq<byte>, limit: u32) returns (writelen: nat)
      requires Valid()
      modifies this, buffer
      ensures Valid()
      ensures writelen == Taken(|dat|, old(dataLen), buffer.Length, limit) <= |dat|
      ensures Contents() == old(Contents()) + dat[..writelen]
      ensures limit != 0 ==> dataLen <= limit || writelen == 0
      ensures limit >= 0x8000_0000 ==> writelen == 0
      ensures writelen < |dat| ==>
        || dataLen == buffer.Length
        || (limit != 0 && (dataLen == limit || old(dataLen) > limit || limit >= 0x8000_0000))
    {
      if limit == 0 {
        writelen := In(dat);
        return;
      }
      var rbleft := Signed32(limit) - dataLen;
      if rbleft < 0 {
        return 0;
      }
      var len := if rbleft < |dat| then rbleft else |dat|;
      writelen := In(dat[..len]);
      assert dat[..len][..writelen] == dat[..writelen];
    }
  }
}
