/** What the UART receiver does with the bytes in its ring, stated on values: uart_find_packet of
    daemon/dev8030/uart8030/uart_pkt.c and the loop of uart_data_process around it. */
module UartSpec {
  import opened Bytes

  const SYNC: seq<byte> := [0xFF, 0xA5, 0xAA, 0x5A, 0xFF]
  const MSG_HEADER_SIZE := 15
  const MSG_CMD_LENGTH_MAX := 4134
  const XDS_MSG_ID_RPC: byte := 0x50

  predicate SyncAt(s: seq<byte>, i: nat) {
    i + 5 <= |s| && s[i] == 0xFF && s[i + 1] == 0xA5 && s[i + 2] == 0xAA && s[i + 3] == 0x5A && s[i + 4] == 0xFF
  }

  /** The first place, from i on, where the five sync bytes stand. */
  function FindSync(s: seq<byte>, i: nat): (r: Option<nat>)
    ensures r.Some? ==> i <= r.value && SyncAt(s, r.value)
    ensures forall k :: i <= k && SyncAt(s, k) ==> r.Some? && r.value <= k
    decreases |s| - i
  {
    if |s| < i + 5 then None
    else if SyncAt(s, i) then Some(i)
    else FindSync(s, i + 1)
  }

  function Le16(s: seq<byte>, i: nat): nat
    requires i + 2 <= |s|
  {
    s[i] as int + 256 * s[i + 1] as int
  }

  function Total(s: seq<byte>): nat {
    if s == [] then 0 else Total(s[..|s| - 1]) + s[|s| - 1]
  }

  lemma TotalNext(s: seq<byte>, i: nat)
    requires i < |s|
    ensures Total(s[..i + 1]) == Total(s[..i]) + s[i]
  {
    assert s[..i + 1][..i] == s[..i];
  }

  function Checksum(s: seq<byte>): nat {
    Total(s) % 0x1_0000
  }

  datatype Reason = Gap | FrameLength | BadChecksum

  /** One look at the ring: nothing to take yet, with or without a header found; n bytes to drop; or
      a packet of n bytes. last ends the pass. */
  datatype Outcome =
    | NotComplete(hdr: bool)
    | Drop(n: nat, last: bool, why: Reason)
    | Packet(n: nat, last: bool)

  /** Skipping a header that turned out bad: its sync, and everything before the next one. */
  function Skip(buf: seq<byte>, why: Reason): (o: Outcome)
    requires MSG_HEADER_SIZE <= |buf|
    ensures o.Drop? && 0 < o.n <= |buf|
  {
    match FindSync(buf[5..], 0)
    case None => Drop(|buf| - 4, true, why)
    case Some(i) => Drop(i + 5, false, why)
  }

  /** What to do with a header that stands at the front. */
  function Check(buf: seq<byte>, size: nat): (o: Outcome)
    requires MSG_HEADER_SIZE <= |buf|
    ensures o.Drop? ==> 0 < o.n <= |buf|
    ensures o.Packet? ==> MSG_HEADER_SIZE <= o.n <= |buf|
  {
    var framelen := Le16(buf, 5);
    if framelen == 0 || framelen > MSG_CMD_LENGTH_MAX || framelen > size then Skip(buf, FrameLength)
    else if MSG_HEADER_SIZE + framelen > |buf| then NotComplete(true)
    else if Checksum(buf[MSG_HEADER_SIZE..MSG_HEADER_SIZE + framelen]) != Le16(buf, 13) then Skip(buf, BadChecksum)
    else Packet(framelen + MSG_HEADER_SIZE, framelen + MSG_HEADER_SIZE == |buf|)
  }

  function Look(buf: seq<byte>, hdr: bool, size: nat): (o: Outcome)
    requires hdr ==> MSG_HEADER_SIZE <= |buf|
    ensures o.Drop? ==> 0 < o.n <= |buf|
    ensures o.Packet? ==> MSG_HEADER_SIZE <= o.n <= |buf|
    ensures o.NotComplete? && o.hdr ==> MSG_HEADER_SIZE <= |buf|
  {
    if hdr then
      var n := Le16(buf, 5) + MSG_HEADER_SIZE;
      if |buf| < n then NotComplete(true) else Packet(n, n == |buf|)
    else if |buf| < MSG_HEADER_SIZE then NotComplete(false)
    else
      match FindSync(buf, 0)
      case None => Drop(|buf| - 4, true, Gap)
      case Some(i) =>
        if i != 0 then Drop(i, false, Gap) else Check(buf, size)
  }

  /** The receiver: unconsumed bytes, whether their first header is already accepted, the payloads
      delivered so far, and the byte counters. */
  datatype Rx = Rx(
    buf: seq<byte>,
    hdr: bool,
    out: seq<seq<byte>>,
    ok: nat,
    gap: nat,
    flen: nat,
    sum: nat)

  predicate RxOk(p: Rx) {
    p.hdr ==> MSG_HEADER_SIZE <= |p.buf|
  }

  const FRESH := Rx([], false, [], 0, 0, 0, 0)

  function Dropped(p: Rx, n: nat, why: Reason): Rx
    requires n <= |p.buf|
  {
    var q := p.(buf := p.buf[n..], hdr := false);
    match why
    case Gap => q.(gap := p.gap + n)
    case FrameLength => q.(flen := p.flen + n)
    case BadChecksum => q.(sum := p.sum + n)
  }

  function Delivered(p: Rx, n: nat): Rx
    requires MSG_HEADER_SIZE <= n <= |p.buf|
  {
    p.(buf := p.buf[n..], hdr := false, out := p.out + [p.buf[MSG_HEADER_SIZE..n]], ok := p.ok + n)
  }

  /** One pass over the ring. */
  function Process(p: Rx, size: nat): (q: Rx)
    requires RxOk(p)
    ensures RxOk(q)
    decreases |p.buf|
  {
    match Look(p.buf, p.hdr, size)
    case NotComplete(hdr) => p.(hdr := hdr)
    case Drop(n, last, why) => if last then Dropped(p, n, why) else Process(Dropped(p, n, why), size)
    case Packet(n, last) => if last then Delivered(p, n) else Process(Delivered(p, n), size)
  }

  /** A read from the line followed by a pass. */
  function Feed(p: Rx, chunk: seq<byte>, size: nat): (q: Rx)
    requires RxOk(p)
    ensures RxOk(q)
  {
    Process(p.(buf := p.buf + chunk), size)
  }

  function FeedAll(p: Rx, chunks: seq<seq<byte>>, size: nat): (q: Rx)
    requires RxOk(p)
    ensures RxOk(q)
    decreases |chunks|
  {
    if chunks == [] then p else FeedAll(Feed(p, chunks[0], size), chunks[1..], size)
  }

  lemma {:induction false} FeedAllAppend(p: Rx, chunks: seq<seq<byte>>, last: seq<byte>, size: nat)
    requires RxOk(p)
    ensures FeedAll(p, chunks + [last], size) == Feed(FeedAll(p, chunks, size), last, size)
    decreases |chunks|
  {
    if chunks == [] {
      assert [last][1..] == [];
    } else {
      assert (chunks + [last])[1..] == chunks[1..] + [last];
      FeedAllAppend(Feed(p, chunks[0], size), chunks[1..], last, size);
    }
  }

  // Accounting.

  /** Every byte received is in exactly one counter or still in the ring. */
  function Counted(p: Rx): nat {
    p.ok + p.gap + p.flen + p.sum + |p.buf|
  }

  /** Bytes of the packets delivered, headers included. */
  function PacketBytes(out: seq<seq<byte>>): nat {
    if out == [] then 0 else PacketBytes(out[..|out| - 1]) + MSG_HEADER_SIZE + |out[|out| - 1]|
  }

  lemma OneMorePacket(out: seq<seq<byte>>, payload: seq<byte>)
    ensures PacketBytes(out + [payload]) == PacketBytes(out) + MSG_HEADER_SIZE + |payload|
  {
    assert (out + [payload])[..|out|] == out;
  }

  lemma {:induction false} ProcessCounts(p: Rx, size: nat)
    requires RxOk(p)
    ensures var q := Process(p, size);
      && Counted(q) == Counted(p)
      && (p.ok == PacketBytes(p.out) ==> q.ok == PacketBytes(q.out))
    decreases |p.buf|
  {
    hide Look, PacketBytes;
    match Look(p.buf, p.hdr, size)
    case NotComplete(_) =>
    case Drop(n, last, why) => if !last { ProcessCounts(Dropped(p, n, why), size); }
    case Packet(n, last) =>
      var q := Delivered(p, n);
      OneMorePacket(p.out, p.buf[MSG_HEADER_SIZE..n]);
      if !last { ProcessCounts(q, size); }
  }

  /** Nothing delivered or counted is taken back. */
  predicate Grows(p: Rx, q: Rx) {
    p.out <= q.out && p.ok <= q.ok && p.gap <= q.gap && p.flen <= q.flen && p.sum <= q.sum
  }

  lemma {:induction false} ProcessGrows(p: Rx, size: nat)
    requires RxOk(p)
    ensures Grows(p, Process(p, size))
    decreases |p.buf|
  {
    hide Look;
    match Look(p.buf, p.hdr, size)
    case NotComplete(_) =>
    case Drop(n, last, why) => if !last { ProcessGrows(Dropped(p, n, why), size); }
    case Packet(n, last) => if !last { ProcessGrows(Delivered(p, n), size); }
  }

  /** total_bytes == ok_bytes + drop_gap + drop_flen + drop_checksum + data_len, over any run. */
  lemma {:induction false} AllCounted(p: Rx, chunks: seq<seq<byte>>, size: nat)
    requires RxOk(p) && p.ok == PacketBytes(p.out)
    ensures var q := FeedAll(p, chunks, size);
      && Counted(q) == Counted(p) + |Flatten(chunks)|
      && q.ok == PacketBytes(q.out)
      && Grows(p, q)
    decreases |chunks|
  {
    if chunks != [] {
      ProcessGrows(p.(buf := p.buf + chunks[0]), size);
      ProcessCounts(p.(buf := p.buf + chunks[0]), size);
      AllCounted(Feed(p, chunks[0], size), chunks[1..], size);
    }
  }

  /** Between passes the accepted header announces a length in range that is not complete yet, so
      that the unconsumed bytes always stay below one packet. */
  predicate Waiting(p: Rx) {
    if p.hdr then
      && MSG_HEADER_SIZE <= |p.buf| < MSG_HEADER_SIZE + Le16(p.buf, 5)
      && 0 < Le16(p.buf, 5) <= MSG_CMD_LENGTH_MAX
    else |p.buf| < MSG_HEADER_SIZE
  }

  lemma {:induction false} ProcessWaits(p: Rx, size: nat)
    requires RxOk(p) && (p.hdr ==> 0 < Le16(p.buf, 5) <= MSG_CMD_LENGTH_MAX)
    ensures Waiting(Process(p, size))
    decreases |p.buf|
  {
    match Look(p.buf, p.hdr, size)
    case NotComplete(_) =>
    case Drop(n, last, why) => if !last { ProcessWaits(Dropped(p, n, why), size); }
    case Packet(n, last) => if !last { ProcessWaits(Delivered(p, n), size); }
  }

  lemma {:induction false} FeedAllWaits(p: Rx, chunks: seq<seq<byte>>, size: nat)
    requires Waiting(p)
    ensures RxOk(p) && Waiting(FeedAll(p, chunks, size))
    decreases |chunks|
  {
    if chunks != [] {
      ProcessWaits(p.(buf := p.buf + chunks[0]), size);
      FeedAllWaits(Feed(p, chunks[0], size), chunks[1..], size);
    }
  }
}
