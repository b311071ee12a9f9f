/** What each event does to one socket of the daemon: the transmit window of daemon/sock_node.c,
    stated on values. SockNode carries out the same steps on the source's records and arrays. */
module SocketSpec {
  import opened Bytes
  import opened RingBuffers

  const U32 := 0x1_0000_0000

  /** The device's reply code that names the position it wants next. */
  const WRONG_POSITION := -0x107

  datatype SockSta =
    | NotInit
    | NeedSendCmd
    | WaitUsbCmd
    | CanSendData
    | WaitUsbData
    | NeedSendClose
    | WaitUsbClose

  /** One application write that is not yet reported: the stream positions it occupies. */
  datatype WrNode = WrNode(wrInit: nat, wrMax: nat)

  datatype Opt = SoOpen | SoWrite | SoRead | SoClose | SoOther

  /** A pack from the device for this socket; pos is the position that so_write replies carry. */
  datatype DevPack = DevPack(opt: Opt, sta: int, pos: nat)

  /** A so_write pack to the device. */
  datatype Packet = Packet(pos: nat, data: seq<byte>)

  /** The application's writes: those not yet reported, the position the next one starts at, and
      two histories, the length accepted from each write and the length reported for each. */
  datatype Book = Book(nodes: seq<WrNode>, cur: nat, lens: seq<int>, reported: seq<int>)

  /** The socket, with every byte ever accepted from the application as its history. */
  datatype Window = Window(
    sta: SockSta,
    hasOpened: bool,
    attached: bool,
    freed: bool,
    ring: seq<byte>,
    size: nat,
    limit: u32,
    chunk: nat,
    head: nat,
    wr: nat,
    stream: seq<byte>,
    book: Book)

  function Init(size: nat, chunk: nat): Window {
    Window(NotInit, false, true, false, [], size, 0, chunk, 0, 0, [], Book([], 0, [], []))
  }

  function Length(n: WrNode): int {
    n.wrMax - n.wrInit
  }

  function Lengths(nodes: seq<WrNode>): seq<int> {
    seq(|nodes|, i requires 0 <= i < |nodes| => Length(nodes[i]))
  }

  /** What a peek of len bytes at offset start of the ring returns. */
  function Peek(ring: seq<byte>, start: nat, len: nat): seq<byte> {
    if start > |ring| then [] else ring[start..start + Min(len, |ring| - start)]
  }

  /** The offset of the next unsent byte in the ring, through the cast to 32 bits. */
  function Unsent(w: Window): nat {
    (w.wr - w.head) % U32
  }

  function Enter(b: Book, n: nat): Book {
    Book(b.nodes + [WrNode(b.cur, b.cur + n)], b.cur + n, b.lens + [n], b.reported)
  }

  /** An application write, once the socket is open. */
  function Push(w: Window, data: seq<byte>): Window
    requires |w.ring| <= w.size
  {
    var n := Taken(|data|, |w.ring|, w.size, w.limit);
    w.(ring := w.ring + data[..n],
       sta := CanSendData,
       stream := w.stream + data[..n],
       book := Enter(w.book, n))
  }

  /** How many pending writes, from the oldest on, end at or below position head. */
  function Done(nodes: seq<WrNode>, head: nat): (n: nat)
    ensures n <= |nodes|
  {
    if nodes == [] || head < nodes[0].wrMax then 0 else 1 + Done(nodes[1..], head)
  }

  function Complete(b: Book, head: nat): Book {
    var n := Done(b.nodes, head);
    b.(nodes := b.nodes[n..], reported := b.reported + Lengths(b.nodes[..n]))
  }

  function Release(w: Window, endpos: nat): Window {
    if endpos < w.head || endpos > w.wr then w
    else w.(ring := w.ring[Min((endpos - w.head) % U32, |w.ring|)..], head := endpos)
  }

  /** A non-negative reply: bytes up to endpos have been sent. */
  function OnAck(w: Window, endpos: nat): Window {
    var w' := Release(w, endpos);
    w'.(book := Complete(w'.book, w'.head), sta := if w'.sta == WaitUsbData then CanSendData else w'.sta)
  }

  /** The device asks for the stream to continue from pos; nothing is checked. */
  function OnRewind(w: Window, pos: nat): Window {
    var w' := w.(wr := pos);
    if w'.wr == w'.head && Peek(w'.ring, Unsent(w'), 1) != [] then w'.(sta := CanSendData)
    else if w'.sta == CanSendData then w'.(sta := WaitUsbData)
    else w'
  }

  function OnWriteReply(w: Window, p: DevPack): Window {
    if !w.attached then w
    else if p.sta >= 0 then OnAck(w, p.pos + p.sta)
    else if p.sta == WRONG_POSITION then OnRewind(w, p.pos)
    else w
  }

  function OnPack(w: Window, p: DevPack): Window {
    if p.opt == SoClose then w.(freed := true)
    else match w.sta
      case WaitUsbCmd =>
        if !w.attached then w.(sta := NeedSendClose)
        else if p.sta == 0 then w.(sta := CanSendData, hasOpened := true, ring := [])
        else w.(sta := NotInit)
      case WaitUsbData | CanSendData =>
        if !w.attached then w.(sta := NeedSendClose)
        else if p.opt == SoWrite then OnWriteReply(w, p)
        else w
      case _ => w
  }

  /** A pack reaches the socket unless it is an open reply for a socket already open. */
  predicate Routed(w: Window, p: DevPack) {
    !(w.hasOpened && p.opt == SoOpen)
  }

  function Receive(w: Window, p: DevPack): Window {
    if Routed(w, p) then OnPack(w, p) else w
  }

  /** One call of the pack maker: the socket afterwards, and the so_write pack if one was made. */
  function MakePack(w: Window): (Window, Option<Packet>) {
    match w.sta
    case NeedSendCmd => (w.(sta := WaitUsbCmd), None)
    case NeedSendClose => (if w.hasOpened then w.(sta := WaitUsbClose) else w.(freed := true), None)
    case CanSendData =>
      var data := Peek(w.ring, Unsent(w), w.chunk);
      if data == [] then (w.(sta := WaitUsbData), None)
      else (w.(wr := w.wr + |data|), Some(Packet(w.wr, data)))
    case _ => (w, None)
  }

  /** What the scan asks of a socket: whether it wants the sender. One to be closed unopened frees itself. */
  function NeedWrite(w: Window): (Window, bool) {
    match w.sta
    case NeedSendCmd => (w, true)
    case NeedSendClose => if w.hasOpened then (w, true) else (w.(freed := true), false)
    case CanSendData => (w, w.attached && Peek(w.ring, Unsent(w), 1) != [])
    case _ => (w, false)
  }

  /** The application's other requests. */
  function Open(w: Window): Window {
    if w.sta == NotInit then w.(sta := NeedSendCmd) else w
  }

  function Write(w: Window, data: seq<byte>): Window
    requires |w.ring| <= w.size
  {
    if w.sta == CanSendData || w.sta == WaitUsbData then Push(w, data) else w
  }

  function Close(w: Window): Window {
    if w.sta == CanSendData || w.sta == WaitUsbData then w.(sta := NeedSendClose) else w
  }

  /** The application's connection went away. */
  function Detach(w: Window): Window {
    w.(sta := NeedSendClose, attached := false)
  }
}
