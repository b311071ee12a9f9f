/** Datagrams carried over the byte stream of a socket: app/ar8030/session_socket_datagram_ext.c and
    the receiving half of app/ar8030/session_socket.c. */
module Datagram {
  import opened Bytes
  import opened RingBuffers
  import opened Framing
  import opened Reassembly

  const FIXPACKBASE := 7

  function Encoded(data: seq<byte>): (s: seq<byte>)
    requires |data| < 0x1_0000_0000
    ensures |s| == FIXPACKBASE + |data|
  {
    Encode(DATAGRAM, [], data)
  }

  lemma DatagramRoundTrip(before: seq<byte>, data: seq<byte>, after: seq<byte>)
    requires |data| < 0x1_0000_0000
    ensures var s := before + Encoded(data) + after;
      && ValidAt(DATAGRAM, s, |before|)
      && DataAt(DATAGRAM, s, |before|) == data
      && End(DATAGRAM, s, |before|) == |before| + |Encoded(data)|
  {
    EncodeIsValid(DATAGRAM, before, [], data, after);
  }

  /** First byte, length and check. */
  method WriteHead(buff: array<byte>, datalen: nat)
    requires FIXPACKBASE + datalen <= buff.Length && datalen < 0x1_0000_0000
    modifies buff
    ensures buff[..6] == [0xab] + Le32(datalen) + [] + [XorCheck([0xab] + Le32(datalen) + [])]
    ensures buff[6..] == old(buff[6..])
  {
    hide XorCheck;
    buff[0] := 0xab;
    buff[1], buff[2], buff[3], buff[4] :=
      datalen % 256, datalen / 256 % 256, datalen / 0x1_0000 % 256, datalen / 0x100_0000;
    ghost var front := [0xab] + Le32(datalen) + [];
    assert buff[0..5] == front;
    var orchk := XorCheckOf(buff, 0, 5);
    buff[5] := orchk;
    assert buff[..6] == front + [orchk];
  }

  /** make_datagram_pack2buff. */
  method MakeDatagramPack2Buff(buff: array<byte>, len: nat, data: seq<byte>) returns (ret: int)
    requires len <= buff.Length && |data| < 0x1_0000_0000
    modifies buff
    ensures ret == if len < |Encoded(data)| then -1 else |Encoded(data)|
    ensures ret < 0 ==> buff[..] == old(buff[..])
    ensures ret >= 0 ==> buff[..] == Encoded(data) + old(buff[|Encoded(data)|..])
  {
    hide XorCheck, Le32;
    var datalen := |data|;
    var maxlen := FIXPACKBASE + datalen;
    if len < maxlen {
      return -1;
    }
    ghost var was := buff[6..];
    WriteHead(buff, datalen);
    ghost var head := buff[..6];
    forall k | 0 <= k < datalen {
      buff[6 + k] := data[k];
    }
    buff[6 + datalen] := 0xbc;
    assert buff[..6] == head;
    assert buff[6..6 + datalen] == data;
    assert buff[maxlen..] == was[1 + datalen..] == old(buff[maxlen..]);
    assert buff[..] == buff[..6] + buff[6..6 + datalen] + [0xbc] + buff[maxlen..];
    return maxlen;
  }

  /** unpack_datagram_pack on the first bufflen bytes of buff. */
  method UnpackDatagramPack(buff: array<byte>, bufflen: nat)
    returns (ret: int, usedlen: nat, datapack: nat, datalen: nat)
    requires bufflen <= buff.Length && bufflen < 0x1_0000_0000
    ensures var s := buff[..bufflen]; var o := Find(DATAGRAM, s, 0);
      if o.Some? then
        && ret == 0 && usedlen == End(DATAGRAM, s, o.value)
        && datapack + datalen <= bufflen && s[datapack..datapack + datalen] == DataAt(DATAGRAM, s, o.value)
      else ret == if bufflen < FIXPACKBASE then -1 else -2
  {
    usedlen, datapack, datalen := 0, 0, 0;
    if bufflen < FIXPACKBASE {
      return -1, 0, 0, 0;
    }
    ghost var s := buff[..bufflen];
    var offset := 0;
    while offset <= bufflen - FIXPACKBASE
      invariant offset <= bufflen - FIXPACKBASE + 1
      invariant Find(DATAGRAM, s, 0) == Find(DATAGRAM, s, offset)
    {
      var good;
      good, datalen := CheckFrame(buff, bufflen, offset);
      if good {
        return 0, offset + FIXPACKBASE + datalen, offset + FIXPACKBASE - 1, datalen;
      }
      offset := offset + 1;
    }
    return -2, 0, 0, 0;
  }

  /** The checks of one candidate offset, in the source's order. */
  method CheckFrame(buff: array<byte>, bufflen: nat, offset: nat) returns (good: bool, datalen: nat)
    requires bufflen <= buff.Length && offset + FIXPACKBASE <= bufflen
    ensures good == ValidAt(DATAGRAM, buff[..bufflen], offset)
    ensures good ==> datalen == DataLen(DATAGRAM, buff[..bufflen], offset)
  {
    ghost var s := buff[..bufflen];
    datalen := 0;
    if buff[offset] != 0xab {
      return false, 0;
    }
    datalen := buff[offset + 1] as int + 256 * buff[offset + 2] as int + 0x1_0000 * buff[offset + 3] as int
               + 0x100_0000 * buff[offset + 4] as int;
    assert s[offset + 1..offset + 5] == buff[offset + 1..offset + 5];
    var maxlen := FIXPACKBASE + datalen;
    if offset + maxlen > bufflen {
      return false, datalen;
    }
    if buff[offset + maxlen - 1] != 0xbc {
      return false, datalen;
    }
    var cal := XorCheckOf(buff, offset, FIXPACKBASE - 2);
    assert s[offset..offset + 5] == buff[offset..offset + 5];
    good := cal == buff[offset + FIXPACKBASE - 2];
  }

  /** A read of the application: still waiting, or returned with its data after so many arrivals. */
  datatype Call = Waiting(ring: seq<byte>) | Returned(ring: seq<byte>, out: seq<byte>, used: nat)

  function WithUsed(c: Call, n: nat): Call {
    if c.Waiting? then c else c.(used := c.used + n)
  }

  /** One look: the next datagram cut to the caller's room, nothing if there is none, and what is left. */
  function Next(ring: seq<byte>, len: nat): (seq<byte>, seq<byte>) {
    var o := Find(DATAGRAM, ring, 0);
    if o.None? then ([], ring)
    else
      var d := DataAt(DATAGRAM, ring, o.value);
      (d[..Min(len, |d|)], ring[End(DATAGRAM, ring, o.value)..])
  }

  /** Each time it is awake the read looks for one datagram, and takes a length of zero for none. */
  function ReadCall(ring: seq<byte>, len: nat, arrivals: seq<seq<byte>>, size: nat): (c: Call)
    ensures c.Returned? ==> c.out != []
    decreases |arrivals|
  {
    var (out, left) := Next(ring, len);
    if out != [] then Returned(left, out, 0)
    else if arrivals == [] then Waiting(left)
    else
      var room := if |left| < size then size - |left| else 0;
      WithUsed(ReadCall(left + arrivals[0][..Min(|arrivals[0]|, room)], len, arrivals[1..], size), 1)
  }

  /** The receiving side of a datagram-mode session. */
  class SockSession {
    const rxRb: RingBuffer
    const datagramBufferRx: array<byte>

    ghost predicate Valid()
      reads this, rxRb
    {
      && rxRb.Valid()
      && rxRb.buffer.Length == datagramBufferRx.Length < 0x1_0000_0000
      && rxRb.buffer != datagramBufferRx
    }

    constructor (buflen: nat)
      requires 0 < buflen < 0x1_0000_0000
      ensures Valid() && rxRb.Contents() == [] && fresh(rxRb) && fresh(rxRb.buffer) && fresh(datagramBufferRx)
    {
      rxRb := new RingBuffer(buflen);
      datagramBufferRx := new byte[buflen](_ => 0);
    }

    /** The receive push of so_rpc_cb; bytes that do not fit are lost. */
    method PushReceived(datapack: seq<byte>) returns (pushlen: nat)
      requires Valid()
      modifies rxRb, rxRb.buffer
      ensures Valid()
      ensures pushlen == Min(|datapack|, rxRb.buffer.Length - |old(rxRb.Contents())|)
      ensures rxRb.Contents() == old(rxRb.Contents()) + datapack[..pushlen]
    {
      pushlen := rxRb.In(datapack);
    }

    /** datagram_get_data: the next datagram, cut to the caller's buffer of len bytes; the ring loses
        everything up to the end of its frame, and nothing when no frame is complete. */
    method DatagramGetData(len: nat) returns (ret: int, out: seq<byte>)
      requires Valid()
      modifies rxRb, datagramBufferRx
      ensures Valid()
      ensures var s := old(rxRb.Contents()); var o := Find(DATAGRAM, s, 0);
        if o.Some? then
          && out == DataAt(DATAGRAM, s, o.value)[..Min(len, |DataAt(DATAGRAM, s, o.value)|)]
          && ret == |out|
          && rxRb.Contents() == s[End(DATAGRAM, s, o.value)..]
        else ret == -1 && rxRb.Contents() == s
    {
      hide ValidAt, End, DataAt, Find, Walk;
      out := [];
      ghost var s := rxRb.Contents();
      var tmplen := CopyRing();
      if tmplen <= 0 {
        NothingInNothing();
        return -1, [];
      }
      var packflg, usedlen, datapack, datalen := UnpackDatagramPack(datagramBufferRx, tmplen);
      if packflg != 0 {
        return -1, [];
      }
      if datalen > len {
        datalen := len;
      }
      out := datagramBufferRx[datapack..datapack + datalen];
      var gone := rxRb.Out(usedlen);
      assert rxRb.Contents() == s[|gone|..];
      return datalen, out;
    }

    /** One look of bb_socket_read. */
    method LookOnce(len: nat) returns (ret: int, out: seq<byte>)
      requires Valid()
      modifies rxRb, datagramBufferRx
      ensures Valid() && rxRb.Contents() == Next(old(rxRb.Contents()), len).1
      ensures var d := Next(old(rxRb.Contents()), len).0; if d == [] then ret <= 0 else ret > 0 && out == d
    {
      hide ValidAt, End, DataAt, Find, Walk;
      ret, out := DatagramGetData(len);
    }

    /** bb_socket_read in datagram mode without a timeout, woken once after each arrival; waiting says
        that it is still in its wait after the last one. */
    method BbSocketRead(len: nat, arrivals: seq<seq<byte>>) returns (waiting: bool, out: seq<byte>, used: nat)
      requires Valid()
      modifies rxRb, rxRb.buffer, datagramBufferRx
      ensures Valid()
      ensures var c := ReadCall(old(rxRb.Contents()), len, arrivals, rxRb.buffer.Length);
        && rxRb.Contents() == c.ring
        && if c.Waiting? then waiting else !waiting && out == c.out && used == c.used
    {
      hide Next, Walk;
      used := 0;
      assert arrivals[0..] == arrivals;
      while true
        invariant Valid() && used <= |arrivals|
        invariant WithUsed(ReadCall(rxRb.Contents(), len, arrivals[used..], rxRb.buffer.Length), used)
               == ReadCall(old(rxRb.Contents()), len, arrivals, rxRb.buffer.Length)
        decreases |arrivals| - used
      {
        var ret;
        ret, out := LookOnce(len);
        if ret > 0 {
          return false, out, used;
        }
        if used == |arrivals| {
          return true, [], used;
        }
        assert arrivals[used..][0] == arrivals[used] && arrivals[used..][1..] == arrivals[used + 1..];
        var pushlen := PushReceived(arrivals[used]);
        used := used + 1;
      }
    }

    /** The whole ring, copied to where it can be parsed in one piece. */
    method CopyRing() returns (tmplen: nat)
      requires Valid()
      modifies datagramBufferRx
      ensures tmplen == rxRb.dataLen <= datagramBufferRx.Length
      ensures datagramBufferRx[..tmplen] == rxRb.Contents() == old(rxRb.Contents())
    {
      hide Walk;
      var dat := rxRb.GetData(0, datagramBufferRx.Length);
      tmplen := |dat|;
      forall k | 0 <= k < |dat| {
        datagramBufferRx[k] := dat[k];
      }
    }
  }

  lemma NothingInNothing()
    ensures Find(DATAGRAM, [], 0).None?
  {
  }

  // Boundaries.

  function EncodedAll(ds: seq<seq<byte>>): seq<byte>
    requires forall d :: d in ds ==> |d| < 0x1_0000_0000
  {
    if ds == [] then [] else Encoded(ds[0]) + EncodedAll(ds[1..])
  }

  /** What the application and the network do to the receiving ring. */
  datatype Op = Arrive(bytes: seq<byte>) | Read(len: nat)

  function Arrivals(ops: seq<Op>): seq<byte> {
    if ops == [] then []
    else (match ops[0] case Arrive(bytes) => bytes case Read(_) => []) + Arrivals(ops[1..])
  }

  /** The reads that return a datagram, in order: the caller's room and what it got. */
  datatype Got = Got(len: nat, out: seq<byte>)

  /** The same steps as PushReceived and DatagramGetData, while everything that arrives fits. */
  function Reads(ring: seq<byte>, ops: seq<Op>): seq<Got>
    decreases |ops|
  {
    if ops == [] then []
    else match ops[0]
      case Arrive(bytes) => Reads(ring + bytes, ops[1..])
      case Read(len) =>
        var o := Find(DATAGRAM, ring, 0);
        if o.None? then Reads(ring, ops[1..])
        else
          var d := DataAt(DATAGRAM, ring, o.value);
          [Got(len, d[..Min(len, |d|)])] + Reads(ring[End(DATAGRAM, ring, o.value)..], ops[1..])
  }

  /** What the ring holds after all of it. */
  function Left(ring: seq<byte>, ops: seq<Op>): seq<byte>
    decreases |ops|
  {
    if ops == [] then ring
    else match ops[0]
      case Arrive(bytes) => Left(ring + bytes, ops[1..])
      case Read(_) =>
        var o := Find(DATAGRAM, ring, 0);
        Left(if o.None? then ring else ring[End(DATAGRAM, ring, o.value)..], ops[1..])
  }

  /** With the rest of the stream still to come, a read finds the next datagram as soon as all of it
      is there, takes exactly its frame, and finds nothing sooner. */
  lemma ReadNext(ds: seq<seq<byte>>, ring: seq<byte>, later: seq<byte>)
    requires forall d :: d in ds ==> |d| < 0x1_0000_0000
    requires ring + later == EncodedAll(ds) && FirstEndsFirst(DATAGRAM, EncodedAll(ds))
    ensures if ds != [] && |ring| >= |Encoded(ds[0])| then
        && Find(DATAGRAM, ring, 0) == Some(0)
        && DataAt(DATAGRAM, ring, 0) == ds[0]
        && End(DATAGRAM, ring, 0) == |Encoded(ds[0])|
        && ring[|Encoded(ds[0])|..] + later == EncodedAll(ds[1..])
        && FirstEndsFirst(DATAGRAM, EncodedAll(ds[1..]))
      else Find(DATAGRAM, ring, 0).None?
  {
    var s := EncodedAll(ds);
    if ds == [] {
      assert |ring| == 0;
    } else {
      WholeDatagram(ds, ring, later);
      if |ring| < |Encoded(ds[0])| && Find(DATAGRAM, ring, 0).Some? {
        assert s[0..|ring|] == ring;
        ValidInPart(DATAGRAM, s, 0, |ring|, Find(DATAGRAM, ring, 0).value);
      }
    }
  }

  lemma WholeDatagram(ds: seq<seq<byte>>, ring: seq<byte>, later: seq<byte>)
    requires ds != [] && forall d :: d in ds ==> |d| < 0x1_0000_0000
    requires ring + later == EncodedAll(ds)
    ensures Find(DATAGRAM, EncodedAll(ds), 0) == Some(0)
    ensures End(DATAGRAM, EncodedAll(ds), 0) == |Encoded(ds[0])|
    ensures EncodedAll(ds)[|Encoded(ds[0])|..] == EncodedAll(ds[1..])
    ensures |ring| >= |Encoded(ds[0])| ==>
      && Find(DATAGRAM, ring, 0) == Some(0)
      && DataAt(DATAGRAM, ring, 0) == ds[0]
      && End(DATAGRAM, ring, 0) == |Encoded(ds[0])|
      && ring[|Encoded(ds[0])|..] + later == EncodedAll(ds[1..])
  {
    hide ValidAt, End, DataAt, Find, Encoded;
    var e, rest := Encoded(ds[0]), EncodedAll(ds[1..]);
    LeadingFrame(ds[0], rest);
    assert EncodedAll(ds) == e + rest;
    if |ring| >= |e| {
      StartOfRing(e, rest, ring, later);
      LeadingFrame(ds[0], ring[|e|..]);
    }
  }

  lemma StartOfRing(e: seq<byte>, rest: seq<byte>, ring: seq<byte>, later: seq<byte>)
    requires ring + later == e + rest && |ring| >= |e|
    ensures e + ring[|e|..] == ring && ring[|e|..] + later == rest
  {
    assert ring[..|e|] == (ring + later)[..|e|] == e;
    assert ring[|e|..] + later == (ring + later)[|e|..];
  }

  /** With whole datagrams in the ring, a read stays waiting exactly when there is none or the first is
      empty: the empty one is dropped, and the next is not looked at before something else arrives. */
  lemma EmptyDatagramHoldsUpIff(ds: seq<seq<byte>>, len: nat, size: nat)
    requires (forall d :: d in ds ==> |d| < 0x1_0000_0000) && 0 < len
    ensures ReadCall(EncodedAll(ds), len, [], size).Waiting? <==> ds == [] || ds[0] == []
    ensures ReadCall(EncodedAll(ds), len, [], size).ring == if ds == [] then [] else EncodedAll(ds[1..])
  {
    if ds == [] {
      NothingInNothing();
    } else {
      assert EncodedAll(ds) + [] == EncodedAll(ds);
      WholeDatagram(ds, EncodedAll(ds), []);
      hide ValidAt, End, DataAt, Find, Encoded, EncodedAll;
    }
  }

  /** The call returned the first n bytes' datagram d with the arrival that brought the n-th of them, and left
      what came after; or it is still waiting, because they have not come. */
  predicate ReadRight(c: Call, d: seq<byte>, n: nat, ring: seq<byte>, arrivals: seq<seq<byte>>, len: nat) {
    if |ring| + |Flatten(arrivals)| < n then c == Waiting(ring + Flatten(arrivals))
    else
      && c.Returned? && c.out == d[..Min(len, |d|)] && c.used <= |arrivals|
      && var got := ring + Flatten(arrivals[..c.used]);
      && |got| >= n && c.ring == got[n..]
      && (c.used > 0 ==> |ring| + |Flatten(arrivals[..c.used - 1])| < n)
  }

  lemma ReadAtOnce(c: Call, d: seq<byte>, n: nat, ring: seq<byte>, arrivals: seq<seq<byte>>, len: nat)
    requires n <= |ring| && c == Returned(ring[n..], d[..Min(len, |d|)], 0)
    ensures ReadRight(c, d, n, ring, arrivals, len)
  {
    assert ring + Flatten(arrivals[..0]) == ring;
  }

  lemma ReadAfterOneMore(c: Call, d: seq<byte>, n: nat, ring: seq<byte>, arrivals: seq<seq<byte>>, len: nat)
    requires |ring| < n && arrivals != [] && ReadRight(c, d, n, ring + arrivals[0], arrivals[1..], len)
    ensures ReadRight(WithUsed(c, 1), d, n, ring, arrivals, len)
  {
    var a, rest := arrivals[0], arrivals[1..];
    assert arrivals == [a] + rest;
    assert ring + Flatten(arrivals) == (ring + a) + Flatten(rest);
    if c.Returned? {
      AndThen(ring, a, rest, c.used);
      if c.used > 0 {
        AndThen(ring, a, rest, c.used - 1);
        assert |ring + Flatten(arrivals[..c.used])| < n;
      } else {
        assert Flatten(arrivals[..0]) == [];
      }
    }
  }

  /** A read of a stream whose datagrams are not empty returns the first one, cut to the caller's room, with
      exactly the arrival that completes it, and takes just its frame from the ring; it is still waiting if
      and only if no arrival has completed it. */
  lemma {:induction false} ReadReturnsTheFirst(ds: seq<seq<byte>>, ring: seq<byte>, arrivals: seq<seq<byte>>,
                                               later: seq<byte>, len: nat, size: nat)
    requires (forall d :: d in ds ==> 0 < |d| < 0x1_0000_0000) && 0 < len && ds != []
    requires ring + (Flatten(arrivals) + later) == EncodedAll(ds) && FirstEndsFirst(DATAGRAM, EncodedAll(ds))
    requires |ring| + |Flatten(arrivals)| <= size
    ensures ReadRight(ReadCall(ring, len, arrivals, size), ds[0], |Encoded(ds[0])|, ring, arrivals, len)
    decreases |arrivals|
  {
    assert ds[0] in ds;
    hide ValidAt, End, DataAt, Find, FirstEndsFirst, Encoded, EncodedAll, ReadRight;
    ReadNext(ds, ring, Flatten(arrivals) + later);
    var n, c := |Encoded(ds[0])|, ReadCall(ring, len, arrivals, size);
    if |ring| >= n {
      ReadAtOnce(c, ds[0], n, ring, arrivals, len);
    } else if arrivals == [] {
      assert ring + Flatten(arrivals) == ring;
      StillWaiting(c, ds[0], n, ring, len);
    } else {
      var a, rest := arrivals[0], arrivals[1..];
      assert a[..|a|] == a;
      assert ring + (Flatten(arrivals) + later) == (ring + a) + (Flatten(rest) + later);
      ReadReturnsTheFirst(ds, ring + a, rest, later, len, size);
      ReadAfterOneMore(ReadCall(ring + a, len, rest, size), ds[0], n, ring, arrivals, len);
    }
  }

  lemma StillWaiting(c: Call, d: seq<byte>, n: nat, ring: seq<byte>, len: nat)
    requires |ring| < n && c == Waiting(ring)
    ensures ReadRight(c, d, n, ring, [], len)
  {
    assert ring + Flatten<byte>([]) == ring;
  }

  lemma AndThen(ring: seq<byte>, a: seq<byte>, rest: seq<seq<byte>>, k: nat)
    requires k <= |rest|
    ensures ring + Flatten(([a] + rest)[..k + 1]) == (ring + a) + Flatten(rest[..k])
  {
    assert ([a] + rest)[..k + 1] == [a] + rest[..k];
    assert ([a] + rest[..k])[1..] == rest[..k];
  }

  lemma LeadingFrame(d: seq<byte>, after: seq<byte>)
    requires |d| < 0x1_0000_0000
    ensures var s := Encoded(d) + after;
      && Find(DATAGRAM, s, 0) == Some(0)
      && End(DATAGRAM, s, 0) == |Encoded(d)|
      && DataAt(DATAGRAM, s, 0) == d
      && s[|Encoded(d)|..] == after
  {
    DatagramRoundTrip([], d, after);
    assert [] + Encoded(d) + after == Encoded(d) + after;
  }

  /** Whatever the pieces the stream arrives in and whenever the application reads: the k-th read
      that returns a datagram returns the k-th one sent, cut only to the caller's room, and the ring
      is left with the frames of exactly the others. */
  lemma {:induction false} DatagramsInOrder(ds: seq<seq<byte>>, ring: seq<byte>, ops: seq<Op>)
    requires forall d :: d in ds ==> |d| < 0x1_0000_0000
    requires ring + Arrivals(ops) == EncodedAll(ds) && FirstEndsFirst(DATAGRAM, EncodedAll(ds))
    ensures |Reads(ring, ops)| <= |ds|
    ensures forall k :: 0 <= k < |Reads(ring, ops)| ==>
      Reads(ring, ops)[k].out == ds[k][..Min(Reads(ring, ops)[k].len, |ds[k]|)]
    ensures Left(ring, ops) == EncodedAll(ds[|Reads(ring, ops)|..])
    decreases |ops|
  {
    if ops == [] {
      assert ring + [] == ring && ds[0..] == ds;
    } else {
      hide ValidAt, End, DataAt, Find, FirstEndsFirst, Encoded;
      var later := Arrivals(ops[1..]);
      match ops[0]
      case Arrive(bytes) =>
        assert ring + bytes + later == ring + (bytes + later);
        DatagramsInOrder(ds, ring + bytes, ops[1..]);
      case Read(len) =>
        assert [] + later == later;
        ReadNext(ds, ring, later);
        if Find(DATAGRAM, ring, 0).None? {
          DatagramsInOrder(ds, ring, ops[1..]);
        } else {
          DatagramsInOrder(ds[1..], ring[|Encoded(ds[0])|..], ops[1..]);
          assert ds[1..][|Reads(ring, ops)| - 1..] == ds[|Reads(ring, ops)|..];
        }
    }
  }
}
