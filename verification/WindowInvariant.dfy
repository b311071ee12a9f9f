/** The invariant of one socket's transmit window, and which events keep it. */
module WindowInvariant {
  import opened Bytes
  import opened RingBuffers
  import opened SocketSpec

  predicate IsOpen(w: Window) {
    w.sta == CanSendData || w.sta == WaitUsbData
  }

  /** The nodes cover the positions from..to end to end, in order. */
  predicate Tiles(nodes: seq<WrNode>, from: int, to: int) {
    if nodes == [] then from == to
    else
      && nodes[0].wrInit == from
      && nodes[0].wrInit <= nodes[0].wrMax
      && Tiles(nodes[1..], nodes[0].wrMax, to)
  }

  /** The ring holds exactly the unacknowledged bytes and the send position lies among them. */
  predicate InWindow(w: Window) {
    && w.head <= w.wr <= |w.stream|
    && w.ring == w.stream[w.head..]
    && |w.ring| <= w.size < U32
    && w.book.cur == |w.stream|
  }

  /** Before the open reply nothing was accepted; after it the socket never waits for another. */
  predicate OpenedOnce(w: Window) {
    if w.hasOpened then IsOpen(w) || w.sta == NeedSendClose || w.sta == WaitUsbClose
    else !IsOpen(w) && w.stream == []
  }

  /** Pending writes tile everything after the last completed one, and no length is lost. */
  predicate Accounted(b: Book, head: nat) {
    && Tiles(b.nodes, Sum(b.reported), b.cur)
    && b.lens == b.reported + Lengths(b.nodes)
    && 0 <= Sum(b.reported) <= head
  }

  /** Parked for the device, the socket has nothing unsent, or has sent bytes still unacknowledged. */
  predicate NotStalled(w: Window) {
    w.sta == WaitUsbData ==> w.wr == |w.stream| || w.head < w.wr
  }

  predicate WindowInv(w: Window) {
    && InWindow(w)
    && OpenedOnce(w)
    && Accounted(w.book, w.head)
    && (w.chunk > 0 ==> NotStalled(w))
  }

  lemma InitInv(size: nat, chunk: nat)
    requires size < U32
    ensures WindowInv(Init(size, chunk))
  {
  }

  // Pending writes.

  lemma {:induction false} TilesAppend(nodes: seq<WrNode>, from: int, mid: nat, len: nat)
    requires Tiles(nodes, from, mid)
    ensures Tiles(nodes + [WrNode(mid, mid + len)], from, mid + len)
  {
    if nodes != [] {
      assert (nodes + [WrNode(mid, mid + len)])[1..] == nodes[1..] + [WrNode(mid, mid + len)];
      TilesAppend(nodes[1..], nodes[0].wrMax, mid, len);
    }
  }

  /** Taking the first n nodes off a tiling leaves a tiling that starts after their lengths. */
  lemma {:induction false} TilesDrop(nodes: seq<WrNode>, from: int, to: int, n: nat)
    requires n <= |nodes| && Tiles(nodes, from, to)
    ensures Tiles(nodes[n..], from + Sum(Lengths(nodes[..n])), to)
    ensures from <= from + Sum(Lengths(nodes[..n])) <= to
    ensures n > 0 ==> nodes[n - 1].wrMax == from + Sum(Lengths(nodes[..n]))
  {
    if n == 0 {
      assert nodes[0..] == nodes;
      TilesOrdered(nodes, from, to);
    } else {
      assert nodes[1..][n - 1..] == nodes[n..];
      assert Lengths(nodes[..n])[1..] == Lengths(nodes[1..][..n - 1]);
      TilesDrop(nodes[1..], nodes[0].wrMax, to, n - 1);
    }
  }

  lemma {:induction false} TilesOrdered(nodes: seq<WrNode>, from: int, to: int)
    requires Tiles(nodes, from, to)
    ensures from <= to
  {
    if nodes != [] {
      TilesOrdered(nodes[1..], nodes[0].wrMax, to);
    }
  }

  lemma {:induction false} DoneEndsBelow(nodes: seq<WrNode>, head: nat)
    ensures var n := Done(nodes, head);
      (n > 0 ==> nodes[n - 1].wrMax <= head) && (n < |nodes| ==> head < nodes[n].wrMax)
  {
    if nodes != [] && nodes[0].wrMax <= head {
      DoneEndsBelow(nodes[1..], head);
    }
  }

  lemma {:induction false} TilesAbove(nodes: seq<WrNode>, from: int, to: int, n: WrNode)
    requires Tiles(nodes, from, to) && n in nodes
    ensures from <= n.wrMax
  {
    if n != nodes[0] {
      TilesAbove(nodes[1..], nodes[0].wrMax, to, n);
    }
  }

  lemma {:induction false} NoneFinished(nodes: seq<WrNode>, from: int, to: int, head: nat)
    requires Tiles(nodes, from, to)
    ensures forall n :: n in nodes[Done(nodes, head)..] ==> head < n.wrMax
  {
    var k := Done(nodes, head);
    DoneEndsBelow(nodes, head);
    TilesDrop(nodes, from, to, k);
    forall n | n in nodes[k..]
      ensures head < n.wrMax
    {
      if n != nodes[k] {
        assert nodes[k..][1..] == nodes[k + 1..];
        TilesAbove(nodes[k + 1..], nodes[k].wrMax, to, n);
      }
    }
  }

  lemma LengthsSplit(nodes: seq<WrNode>, n: nat)
    requires n <= |nodes|
    ensures Lengths(nodes) == Lengths(nodes[..n]) + Lengths(nodes[n..])
  {
  }

  /** Reporting moves lengths from the pending side of the account to the reported one. */
  lemma CompleteMoves(b: Book, head: nat)
    requires b.lens == b.reported + Lengths(b.nodes)
    ensures var b' := Complete(b, head); b'.lens == b'.reported + Lengths(b'.nodes)
  {
    var n := Done(b.nodes, head);
    LengthsSplit(b.nodes, n);
    assert b.lens == b.reported + Lengths(b.nodes[..n]) + Lengths(b.nodes[n..]);
  }

  /** Reporting completed writes keeps the account. */
  lemma CompleteKeeps(b: Book, was: nat, head: nat)
    requires Accounted(b, was) && was <= head
    ensures Accounted(Complete(b, head), head)
  {
    var n := Done(b.nodes, head);
    DoneEndsBelow(b.nodes, head);
    TilesDrop(b.nodes, Sum(b.reported), b.cur, n);
    SumAppend(b.reported, Lengths(b.nodes[..n]));
    CompleteMoves(b, head);
  }

  lemma EnterKeeps(b: Book, head: nat, n: nat)
    requires Accounted(b, head)
    ensures Accounted(Enter(b, n), head)
  {
    TilesAppend(b.nodes, Sum(b.reported), b.cur, n);
    assert Lengths(Enter(b, n).nodes) == Lengths(b.nodes) + [n];
  }

  // The events, one by one.

  lemma PushKeeps(w: Window, data: seq<byte>)
    requires WindowInv(w) && IsOpen(w)
    ensures WindowInv(Push(w, data))
  {
    EnterKeeps(w.book, w.head, Taken(|data|, |w.ring|, w.size, w.limit));
  }

  /** An acknowledgement keeps the window wherever it points, and clears every finished write. */
  lemma AckKeeps(w: Window, endpos: nat)
    requires WindowInv(w) && IsOpen(w)
    ensures WindowInv(OnAck(w, endpos))
    ensures forall n :: n in OnAck(w, endpos).book.nodes ==> OnAck(w, endpos).head < n.wrMax
    ensures OnAck(w, endpos).head == if w.head <= endpos <= w.wr then endpos else w.head
  {
    var head := Release(w, endpos).head;
    CompleteKeeps(w.book, w.head, head);
    NoneFinished(w.book.nodes, Sum(w.book.reported), w.book.cur, head);
  }

  /** The unchecked rewind keeps the window exactly when the device names a position inside it. */
  lemma RewindKeepsIff(w: Window, pos: nat)
    requires WindowInv(w) && IsOpen(w)
    ensures WindowInv(OnRewind(w, pos)) <==> w.head <= pos <= |w.stream|
  {
  }

  /** The pack that the socket makes while it may send. */
  lemma DataPackKeeps(w: Window)
    requires WindowInv(w) && w.sta == CanSendData
    ensures WindowInv(MakePack(w).0)
    ensures MakePack(w).1.Some? ==> Carries(w.stream, MakePack(w).1.value)
  {
    assert Unsent(w) == w.wr - w.head;
    var n := Min(w.chunk, |w.ring| - Unsent(w));
    assert Peek(w.ring, Unsent(w), w.chunk) == w.stream[w.wr..w.wr + n];
  }

  lemma MakePackKeeps(w: Window)
    requires WindowInv(w)
    ensures WindowInv(MakePack(w).0)
    ensures MakePack(w).1.Some? ==> Carries(w.stream, MakePack(w).1.value)
    ensures MakePack(w).0.stream == w.stream && MakePack(w).0.head == w.head
  {
    if w.sta == CanSendData {
      DataPackKeeps(w);
    }
  }

  /** A packet carries the stream's own bytes for the positions it names. */
  predicate Carries(stream: seq<byte>, p: Packet) {
    && 0 < |p.data|
    && p.pos + |p.data| <= |stream|
    && p.data == stream[p.pos..p.pos + |p.data|]
  }

  predicate IsRewind(p: DevPack) {
    p.opt == SoWrite && p.sta == WRONG_POSITION
  }

  predicate IsAck(p: DevPack) {
    p.opt == SoWrite && p.sta >= 0
  }

  /** An open reply is acted on only while the stream is still empty. */
  lemma OpenReplyKeeps(w: Window, p: DevPack)
    requires WindowInv(w) && w.sta == WaitUsbCmd
    ensures WindowInv(OnPack(w, p))
  {
    assert w.stream == [];
    assert w.ring == [] && w.head == w.wr == 0 && !w.hasOpened;
    hide Accounted, Routed, Receive;
    var t := OnPack(w, p);
    assert t.stream == w.stream && t.book == w.book && t.head == w.head && t.wr == w.wr && t.size == w.size;
    assert t.sta != WaitUsbData && t.ring == [];
  }

  /** Replies to writes keep the invariant, provided a rewind points inside the window. */
  lemma WriteReplyKeeps(w: Window, p: DevPack)
    requires WindowInv(w) && IsOpen(w) && p.opt == SoWrite
    requires IsRewind(p) ==> w.head <= p.pos <= |w.stream|
    ensures WindowInv(OnWriteReply(w, p))
    ensures OnWriteReply(w, p).stream == w.stream
    ensures OnWriteReply(w, p).head == w.head || (IsAck(p) && OnWriteReply(w, p).head == p.pos + p.sta)
  {
    hide WindowInv;
    if IsAck(p) {
      AckKeeps(w, p.pos + p.sta);
    } else if IsRewind(p) {
      RewindKeepsIff(w, p.pos);
    }
  }

  lemma ClosingKeeps(w: Window)
    requires WindowInv(w)
    ensures WindowInv(w.(freed := true))
    ensures IsOpen(w) ==> WindowInv(w.(sta := NeedSendClose))
  {
  }

  /** Any pack keeps the invariant, under the same proviso. In particular no second open reply
      empties the ring. */
  lemma ReceiveKeeps(w: Window, p: DevPack)
    requires WindowInv(w)
    requires IsRewind(p) ==> w.head <= p.pos <= |w.stream|
    ensures WindowInv(Receive(w, p))
    ensures Receive(w, p).stream == w.stream
    ensures Receive(w, p).head == w.head || (IsAck(p) && Receive(w, p).head == p.pos + p.sta)
  {
    hide WindowInv, OnWriteReply;
    if w.sta == WaitUsbCmd && p.opt != SoClose {
      OpenReplyKeeps(w, p);
    } else {
      ClosingKeeps(w);
      if IsOpen(w) && p.opt == SoWrite {
        WriteReplyKeeps(w, p);
      }
    }
  }

  /** The application's requests other than writes. */
  lemma RequestsKeep(w: Window, limit: u32)
    requires WindowInv(w)
    ensures WindowInv(Open(w)) && WindowInv(Close(w)) && WindowInv(Detach(w)) && WindowInv(w.(limit := limit))
    ensures Open(w).stream == Close(w).stream == w.stream && Open(w).head == Close(w).head == w.head
  {
  }

  // History.

  /** Nothing accepted or reported is ever taken back, and the head never goes back. */
  predicate HistoryGrows(w: Window, w': Window) {
    && w.stream <= w'.stream
    && w.head <= w'.head
    && w.book.lens <= w'.book.lens
    && w.book.reported <= w'.book.reported
    && w'.chunk == w.chunk
    && w'.size == w.size
  }

  lemma ReceiveGrows(w: Window, p: DevPack)
    ensures HistoryGrows(w, Receive(w, p))
    ensures Receive(w, p).stream == w.stream && Receive(w, p).book.lens == w.book.lens
  {
    hide Lengths, Done, Peek;
  }

  lemma WriteGrows(w: Window, data: seq<byte>)
    requires |w.ring| <= w.size
    ensures HistoryGrows(w, Write(w, data))
  {
    hide Taken;
  }

  lemma MakePackGrows(w: Window)
    ensures HistoryGrows(w, MakePack(w).0)
    ensures MakePack(w).0.stream == w.stream && MakePack(w).0.book == w.book
  {
    hide Peek;
  }
}
