/** What becomes of a packet with a wrong checksum, however the reads cut it. */
module UartCorrupt {
  import opened Bytes
  import opened UartSpec

  /** A packet whose length is acceptable and whose checksum is wrong. */
  predicate Corrupt(f: seq<byte>, payload: seq<byte>) {
    && |f| == MSG_HEADER_SIZE + |payload|
    && 0 < |payload| <= MSG_CMD_LENGTH_MAX
    && SyncAt(f, 0) && Le16(f, 5) == |payload|
    && f[MSG_HEADER_SIZE..] == payload
    && Checksum(payload) != Le16(f, 13)
  }

  lemma {:induction false} PacketBytesOne(payload: seq<byte>)
    ensures PacketBytes([payload]) == MSG_HEADER_SIZE + |payload|
  {
    assert [payload][..0] == [];
  }

  /** A receiver that has dropped something of |f| bytes has not delivered |f| bytes of packets. */
  lemma DroppedNotDelivered(q: Rx, f: seq<byte>, payload: seq<byte>)
    requires |f| == MSG_HEADER_SIZE + |payload|
    requires q.sum > 0 && Counted(q) == |f| && q.ok == PacketBytes(q.out)
    ensures q.out != [payload]
  {
    PacketBytesOne(payload);
  }

  /** Looked at whole, a corrupt packet is dropped. */
  lemma WholeCorruptIsDropped(f: seq<byte>, payload: seq<byte>, size: nat)
    requires Corrupt(f, payload) && MSG_CMD_LENGTH_MAX <= size
    ensures var q := Process(FRESH.(buf := f), size);
      q.sum > 0 && Counted(q) == |f| && q.ok == PacketBytes(q.out)
  {
    var p := FRESH.(buf := f);
    var o := Look(f, false, size);
    assert f[MSG_HEADER_SIZE..MSG_HEADER_SIZE + |payload|] == payload;
    assert o == Skip(f, BadChecksum);
    ProcessCounts(p, size);
    if !o.last {
      ProcessGrows(Dropped(p, o.n, BadChecksum), size);
    }
  }

  lemma HeaderFirst(f: seq<byte>, payload: seq<byte>, cut: nat, size: nat)
    requires Corrupt(f, payload) && MSG_CMD_LENGTH_MAX <= size && MSG_HEADER_SIZE <= cut < |f|
    ensures Process(FRESH.(buf := f[..cut]), size) == FRESH.(buf := f[..cut], hdr := true)
  {
    assert SyncAt(f[..cut], 0) && Le16(f[..cut], 5) == |payload|;
  }

  lemma BodyLater(f: seq<byte>, payload: seq<byte>, size: nat)
    requires Corrupt(f, payload)
    ensures Process(FRESH.(buf := f, hdr := true), size).out == [payload]
  {
    assert Look(f, true, size) == Packet(|f|, true);
    assert f[MSG_HEADER_SIZE..|f|] == payload;
  }

  lemma ShortStays(s: seq<byte>, size: nat)
    requires |s| < MSG_HEADER_SIZE
    ensures Process(FRESH.(buf := s), size) == FRESH.(buf := s)
  {
  }

  // Any number of reads.

  /** Reads of nothing change nothing. */
  lemma {:induction false} EmptyReads(p: Rx, chunks: seq<seq<byte>>, size: nat)
    requires !p.hdr && |p.buf| < MSG_HEADER_SIZE && Flatten(chunks) == []
    ensures FeedAll(p, chunks, size) == p
    decreases |chunks|
  {
    if chunks != [] {
      assert chunks[0] == [] && p.buf + [] == p.buf;
      assert Process(p, size) == p;
      EmptyReads(p, chunks[1..], size);
    }
  }

  /** A header accepted earlier: the packet is delivered as soon as it is complete. */
  lemma {:induction false} HeaderThenBody(f: seq<byte>, payload: seq<byte>, got: nat, chunks: seq<seq<byte>>, size: nat)
    requires Corrupt(f, payload) && MSG_HEADER_SIZE <= got < |f| && f[..got] + Flatten(chunks) == f
    ensures FeedAll(FRESH.(buf := f[..got], hdr := true), chunks, size).out == [payload]
    decreases |chunks|
  {
    var p := FRESH.(buf := f[..got], hdr := true);
    var c, rest := chunks[0], Flatten(chunks[1..]);
    var n := got + |c|;
    assert f[..got] + c + rest == f;
    assert f[..n] == f[..got] + c;
    if n < |f| {
      assert Look(f[..n], true, size) == NotComplete(true);
      assert f[..n] + rest == f;
      HeaderThenBody(f, payload, n, chunks[1..], size);
    } else {
      assert f[..n] == f && rest == [];
      assert Look(f, true, size) == Packet(|f|, true);
      BodyLater(f, payload, size);
      EmptyReads(Process(FRESH.(buf := f, hdr := true), size), chunks[1..], size);
    }
  }

  /** Some read after the first i ends inside the packet, its header included. */
  predicate EndsInside(chunks: seq<seq<byte>>, i: nat, got: nat, total: nat)
    requires i <= |chunks|
  {
    MSG_HEADER_SIZE <= got + |Flatten(chunks[..i])| < total
  }

  predicate CutInside(chunks: seq<seq<byte>>, got: nat, total: nat)
    decreases |chunks|
  {
    MSG_HEADER_SIZE <= got < total || (chunks != [] && CutInside(chunks[1..], got + |chunks[0]|, total))
  }

  lemma {:induction false} CutInsideIff(chunks: seq<seq<byte>>, got: nat, total: nat)
    ensures CutInside(chunks, got, total) <==> exists i :: 0 <= i <= |chunks| && EndsInside(chunks, i, got, total)
    decreases |chunks|
  {
    assert EndsInside(chunks, 0, got, total) <==> MSG_HEADER_SIZE <= got < total;
    if chunks != [] {
      var next := got + |chunks[0]|;
      CutInsideIff(chunks[1..], next, total);
      forall i: nat | 1 <= i <= |chunks|
        ensures EndsInside(chunks, i, got, total) <==> EndsInside(chunks[1..], i - 1, next, total)
      {
        assert chunks[..i][0] == chunks[0] && chunks[..i][1..] == chunks[1..][..i - 1];
      }
      if CutInside(chunks[1..], next, total) {
        var i :| 0 <= i <= |chunks| - 1 && EndsInside(chunks[1..], i, next, total);
        assert EndsInside(chunks, i + 1, got, total);
      }
    }
  }

  /** Of a corrupt packet less than the header has arrived; the rest comes in any reads. */
  lemma {:induction false} DeliveredIfCutInside(f: seq<byte>, payload: seq<byte>, got: nat, chunks: seq<seq<byte>>,
                                                size: nat)
    requires Corrupt(f, payload) && MSG_CMD_LENGTH_MAX <= size
    requires got < MSG_HEADER_SIZE && f[..got] + Flatten(chunks) == f && CutInside(chunks, got, |f|)
    ensures FeedAll(FRESH.(buf := f[..got]), chunks, size).out == [payload]
    decreases |chunks|
  {
    hide Corrupt, Process;
    assert |f| == MSG_HEADER_SIZE + |payload| by { CorruptLength(f, payload); }
    var c, rest := chunks[0], Flatten(chunks[1..]);
    var n := got + |c|;
    assert f[..got] + c + rest == f;
    assert f[..n] == f[..got] + c && f[..n] + rest == f;
    if n < MSG_HEADER_SIZE {
      ShortStays(f[..n], size);
      DeliveredIfCutInside(f, payload, n, chunks[1..], size);
    } else {
      NotAfterTheEnd(chunks[1..], n, |f|);
      HeaderFirst(f, payload, n, size);
      HeaderThenBody(f, payload, n, chunks[1..], size);
    }
  }

  lemma CorruptLength(f: seq<byte>, payload: seq<byte>)
    requires Corrupt(f, payload)
    ensures |f| == MSG_HEADER_SIZE + |payload|
  {
  }

  lemma {:induction false} NotAfterTheEnd(chunks: seq<seq<byte>>, got: nat, total: nat)
    requires CutInside(chunks, got, total)
    ensures got < total
    decreases |chunks|
  {
    if !(MSG_HEADER_SIZE <= got < total) {
      NotAfterTheEnd(chunks[1..], got + |chunks[0]|, total);
    }
  }

  lemma {:induction false} DroppedIfNot(f: seq<byte>, payload: seq<byte>, got: nat, chunks: seq<seq<byte>>, size: nat)
    requires Corrupt(f, payload) && MSG_CMD_LENGTH_MAX <= size
    requires got < MSG_HEADER_SIZE && f[..got] + Flatten(chunks) == f && !CutInside(chunks, got, |f|)
    ensures FeedAll(FRESH.(buf := f[..got]), chunks, size).out != [payload]
    decreases |chunks|
  {
    hide Corrupt, Process;
    CorruptLength(f, payload);
    var c, rest := chunks[0], Flatten(chunks[1..]);
    var n := got + |c|;
    assert f[..got] + c + rest == f;
    assert f[..n] == f[..got] + c && f[..n] + rest == f;
    if n < MSG_HEADER_SIZE {
      ShortStays(f[..n], size);
      DroppedIfNot(f, payload, n, chunks[1..], size);
    } else {
      assert CutInside(chunks[1..], n, |f|) || n >= |f|;
      assert f[..n] == f && rest == [];
      WholeCorruptIsDropped(f, payload, size);
      var q := Process(FRESH.(buf := f), size);
      AllCounted(q, chunks[1..], size);
      DroppedNotDelivered(FeedAll(q, chunks[1..], size), f, payload);
    }
  }

  /** The checksum is compared only when the whole packet is there at the first look at its header: read
      in any number of pieces, a corrupt packet is delivered exactly when some read ends behind its
      header and before its end. */
  lemma CorruptIsDeliveredIff(f: seq<byte>, payload: seq<byte>, chunks: seq<seq<byte>>, size: nat)
    requires Corrupt(f, payload) && MSG_CMD_LENGTH_MAX <= size && Flatten(chunks) == f
    ensures FeedAll(FRESH, chunks, size).out == [payload]
            <==> exists i :: 0 <= i <= |chunks| && MSG_HEADER_SIZE <= |Flatten(chunks[..i])| < |f|
  {
    hide Feed, FeedAll, CutInside;
    assert f[..0] == [] && [] + Flatten(chunks) == f && FRESH == FRESH.(buf := []);
    CutInsideIff(chunks, 0, |f|);
    assert forall i :: 0 <= i <= |chunks| ==>
      (EndsInside(chunks, i, 0, |f|) <==> MSG_HEADER_SIZE <= |Flatten(chunks[..i])| < |f|);
    if CutInside(chunks, 0, |f|) {
      DeliveredIfCutInside(f, payload, 0, chunks, size);
    } else {
      DroppedIfNot(f, payload, 0, chunks, size);
    }
  }
}
