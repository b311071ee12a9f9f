/** What the checksum of a UART frame is worth, and what a frame looks like on the wire
    (daemon/dev8030/uart8030/uart_pkt.c). */
module UartCheck {
  import opened Bytes
  import opened UartSpec
  import opened UartStream

  lemma {:induction false} OneByteInTotal(s: seq<byte>, s': seq<byte>, p: nat)
    requires OnlyDiffersAt(s, s', p)
    ensures Total(s') + s[p] == Total(s) + s'[p]
    decreases |s|
  {
    var n := |s| - 1;
    if p == n {
      assert s[..n] == s'[..n];
    } else {
      OneByteInTotal(s[..n], s'[..n], p);
    }
  }

  lemma NearbyApart(a: nat, b: nat)
    requires a != b && -256 < a - b < 256
    ensures a % 0x1_0000 != b % 0x1_0000
  {
  }

  /** A changed byte always changes the checksum. */
  lemma OneByteChangesChecksum(s: seq<byte>, s': seq<byte>, p: nat)
    requires OnlyDiffersAt(s, s', p)
    ensures Checksum(s) != Checksum(s')
  {
    OneByteInTotal(s, s', p);
    NearbyApart(Total(s), Total(s'));
  }

  /** Behind sync and length, a single changed byte of a sound frame is noticed if and only if it is one of
      the checksum or of the payload: the ids between are not checked. */
  lemma OneByteIsCaughtIff(f: seq<byte>, f': seq<byte>, p: nat)
    requires Framed(f) && Sound(f) && OnlyDiffersAt(f, f', p) && 7 <= p
    ensures Framed(f') && (Sound(f') <==> p < 13)
  {
    assert SyncAt(f', 0);
    if p >= MSG_HEADER_SIZE {
      OneByteChangesChecksum(Payload(f), Payload(f'), p - MSG_HEADER_SIZE);
    } else {
      assert Payload(f) == Payload(f');
    }
  }

  lemma SampleFrame()
    ensures Frame([1, 2, 250]) == [0xFF, 0xA5, 0xAA, 0x5A, 0xFF, 3, 0, 0x50, 0, 0, 0, 0, 0, 253, 0, 1, 2, 250]
  {
    var d: seq<byte> := [1, 2, 250];
    assert d[..2][..1] == d[..1] && d[..1][..0] == [];
    assert Total(d[..1]) == 1 && Total(d[..2]) == 3 && Total(d) == 253;
  }

  // What is counted as what.

  predicate NoSync(s: seq<byte>) {
    forall i: nat :: i + 5 <= |s| ==> !SyncAt(s, i)
  }

  lemma NoSyncInPart(s: seq<byte>, a: nat, b: nat)
    requires NoSync(s) && a <= b <= |s|
    ensures NoSync(s[a..b])
  {
    forall i: nat | i + 5 <= b - a
      ensures !SyncAt(s[a..b], i)
    {
      if SyncAt(s[a..b], i) {
        SyncIsLocal(s[a..b], s, i, a + i);
      }
    }
  }

  /** Nothing but bytes without a sync has been read. */
  predicate OnlyGap(p: Rx, q: Rx, n: nat) {
    && !q.hdr && q.out == p.out && q.ok == p.ok && q.flen == p.flen && q.sum == p.sum
    && q.gap + |q.buf| == p.gap + |p.buf| + n
  }

  lemma GapPass(p: Rx, size: nat)
    requires !p.hdr && NoSync(p.buf)
    ensures OnlyGap(p, Process(p, size), 0)
    ensures |Process(p, size).buf| <= |p.buf| && Process(p, size).buf == p.buf[|p.buf| - |Process(p, size).buf|..]
  {
    if |p.buf| >= MSG_HEADER_SIZE {
      assert FindSync(p.buf, 0).None?;
      assert Look(p.buf, false, size) == Drop(|p.buf| - 4, true, Gap);
      assert p.buf[|p.buf| - 4..] == p.buf[|p.buf| - |p.buf[|p.buf| - 4..]|..];
    }
  }

  /** A line without any sync, read in any pieces: nothing is delivered, and every byte dropped is counted as
      a gap. */
  lemma {:induction false} NoSyncIsGap(p: Rx, chunks: seq<seq<byte>>, size: nat)
    requires !p.hdr && NoSync(p.buf + Flatten(chunks))
    ensures OnlyGap(p, FeedAll(p, chunks, size), |Flatten(chunks)|)
    decreases |chunks|
  {
    if chunks != [] {
      var p1 := p.(buf := p.buf + chunks[0]);
      var later := Flatten(chunks[1..]);
      var s := p.buf + Flatten(chunks);
      assert s == p1.buf + later;
      NoSyncInPart(s, 0, |p1.buf|);
      assert s[0..|p1.buf|] == p1.buf;
      GapPass(p1, size);
      var q := Process(p1, size);
      var k := |p1.buf| - |q.buf|;
      assert q.buf + later == s[k..|s|];
      NoSyncInPart(s, k, |s|);
      hide Process, NoSync, SyncAt;
      NoSyncIsGap(q, chunks[1..], size);
    }
  }

  /** A header with a length that no frame has, or that the ring does not hold, and no other sync: everything dropped is counted under the
      wrong lengths. */
  lemma FalseHeaderIsCounted(buf: seq<byte>, size: nat)
    requires MSG_HEADER_SIZE <= |buf| && SyncAt(buf, 0) && NoSync(buf[5..])
    requires Le16(buf, 5) == 0 || Le16(buf, 5) > 4134 || Le16(buf, 5) > size
    ensures var q := Process(FRESH.(buf := buf), size);
      q == FRESH.(buf := buf[|buf| - 4..], flen := |buf| - 4)
  {
    assert FindSync(buf[5..], 0).None?;
    assert FindSync(buf, 0) == Some(0);
  }

  /** A whole frame with a wrong checksum, and no other sync: everything dropped is counted under the wrong
      checksums. */
  lemma WrongChecksumIsCounted(f: seq<byte>, size: nat)
    requires Framed(f) && !Sound(f) && NoSync(f[5..]) && MSG_CMD_LENGTH_MAX <= size
    ensures var q := Process(FRESH.(buf := f), size);
      q == FRESH.(buf := f[|f| - 4..], sum := |f| - 4)
  {
    assert FindSync(f[5..], 0).None?;
    assert FindSync(f, 0) == Some(0);
    assert f[MSG_HEADER_SIZE..MSG_HEADER_SIZE + Le16(f, 5)] == Payload(f);
  }
}
