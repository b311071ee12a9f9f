/** The daemon's socket records of daemon/sock_node.c, updated in place. Every method is proved to do
    to the records what SocketSpec says the event does to the window. */
module SockNode {
  import opened Bytes
  import opened RingBuffers
  import opened SocketSpec

  /** The application's side of the socket: its unreported writes and the replies queued for it. */
  class SockRpc {
    var sockWrList: seq<WrNode>
    var wrCurPtr: nat
    var writeReplies: seq<int>
    ghost var lens: seq<int>

    constructor ()
      ensures sockWrList == [] && wrCurPtr == 0 && writeReplies == [] && lens == []
    {
      sockWrList, wrCurPtr, writeReplies, lens := [], 0, [], [];
    }

    ghost function Account(): Book
      reads this
    {
      Book(sockWrList, wrCurPtr, lens, writeReplies)
    }

    method AddNewWrNode(lenret: nat)
      modifies this
      ensures Account() == Enter(old(Account()), lenret)
    {
      var pnew := WrNode(wrCurPtr, wrCurPtr + lenret);
      wrCurPtr := wrCurPtr + lenret;
      sockWrList := sockWrList + [pnew];
      lens := lens + [lenret];
    }

    /** Reports every write, from the oldest on, that ends at or below head. */
    method CheckSendCplPtr(head: nat)
      modifies this
      ensures Account() == Complete(old(Account()), head)
    {
      ghost var list := sockWrList;
      ghost var k := 0;
      while sockWrList != [] && head >= sockWrList[0].wrMax
        invariant k <= |list| && sockWrList == list[k..]
        invariant Done(list, head) == k + Done(sockWrList, head)
        invariant writeReplies == old(writeReplies) + Lengths(list[..k])
        invariant wrCurPtr == old(wrCurPtr) && lens == old(lens)
        decreases |sockWrList|
      {
        assert Lengths(list[..k + 1]) == Lengths(list[..k]) + [Length(list[k])];
        writeReplies := writeReplies + [Length(sockWrList[0])];
        sockWrList := sockWrList[1..];
        k := k + 1;
      }
    }
  }

  class SockDev {
    var sockSta: SockSta
    var hasOpened: bool
    var sockrpc: SockRpc?
    var freeflag: bool
    const bufDev: RingBuffer
    var bufDevLimit: u32
    var bufHeadIndex: nat
    var bufWrIndex: nat
    const maxData: nat
    const peer: SockRpc
    ghost var stream: seq<byte>

    ghost predicate Valid()
      reads this, bufDev
    {
      bufDev.Valid() && (sockrpc != null ==> sockrpc == peer)
    }

    ghost function Model(): Window
      requires Valid()
      reads this, bufDev, bufDev.buffer, peer
    {
      Window(sockSta, hasOpened, sockrpc != null, freeflag, bufDev.Contents(), bufDev.buffer.Length, bufDevLimit,
             maxData, bufHeadIndex, bufWrIndex, stream, peer.Account())
    }

    /** sock_node_start: size is the ring's capacity and maxData the payload limit less the eight
        bytes of the position. */
    constructor (rpc: SockRpc, size: nat, maxData: nat)
      requires 0 < size
      requires rpc.Account() == Book([], 0, [], [])
      ensures Valid() && peer == rpc && fresh(bufDev) && fresh(bufDev.buffer)
      ensures Model() == Init(size, maxData)
    {
      sockSta, hasOpened, freeflag := NotInit, false, false;
      sockrpc, peer := rpc, rpc;
      bufDev := new RingBuffer(size);
      bufDevLimit, bufHeadIndex, bufWrIndex := 0, 0, 0;
      this.maxData := maxData;
      stream := [];
    }

    /** sock_dev_push_data. */
    method PushData(datapack: seq<byte>) returns (lenret: nat)
      requires Valid()
      modifies this`sockSta, this`stream, bufDev, bufDev.buffer, peer
      ensures Valid() && sockrpc == old(sockrpc)
      ensures Model() == Push(old(Model()), datapack)
      ensures lenret == |Model().stream| - |old(Model()).stream| <= |datapack|
      ensures bufDev.Contents() == old(bufDev.Contents()) + datapack[..lenret]
      ensures bufDevLimit != 0 ==> bufDev.dataLen <= bufDevLimit || lenret == 0
      ensures lenret < |datapack| ==>
        || bufDev.dataLen == bufDev.buffer.Length
        || (bufDevLimit != 0 &&
              (bufDev.dataLen == bufDevLimit || old(bufDev.dataLen) > bufDevLimit || bufDevLimit >= 0x8000_0000))
    {
      lenret := bufDev.InWithLimit(datapack, bufDevLimit);
      sockSta := CanSendData;
      stream := stream + datapack[..lenret];
      peer.AddNewWrNode(lenret);
    }

    /** The so_write case of rpc_socket_read_proc; the reply carries how much was accepted. */
    method RpcWrite(datapack: seq<byte>) returns (reply: Option<nat>)
      requires Valid()
      modifies this`sockSta, this`stream, bufDev, bufDev.buffer, peer
      ensures Valid() && sockrpc == old(sockrpc)
      ensures Model() == Write(old(Model()), datapack)
      ensures reply == if old(sockSta).CanSendData? || old(sockSta).WaitUsbData? then Some(|stream| - old(|stream|)) else None
    {
      match sockSta
      case CanSendData | WaitUsbData =>
        var len := PushData(datapack);
        return Some(len);
      case _ =>
        return None;
    }

    /** The success half of dev_dat_so_write_proc. */
    method WriteDone(endpos: nat)
      requires Valid() && sockrpc != null
      modifies this`sockSta, this`bufHeadIndex, bufDev, peer
      ensures Valid()
      ensures Model() == OnAck(old(Model()), endpos)
    {
      if endpos < bufHeadIndex || endpos > bufWrIndex {
        // Out of the window: nothing is released.
      } else {
        var popcnt := endpos - bufHeadIndex;
        var gone := bufDev.Out(popcnt % U32);
        bufHeadIndex := bufHeadIndex + popcnt;
      }
      sockrpc.CheckSendCplPtr(bufHeadIndex);
      if sockSta == WaitUsbData {
        sockSta := CanSendData;
      }
    }

    /** The -0x107 case of dev_dat_so_write_proc. */
    method Rewind(pos: nat)
      requires Valid()
      modifies this`sockSta, this`bufWrIndex
      ensures Valid()
      ensures Model() == OnRewind(old(Model()), pos)
    {
      hide Walk;
      bufWrIndex := pos;
      var dat := bufDev.GetData((bufWrIndex - bufHeadIndex) % U32, 1);
      if bufWrIndex == bufHeadIndex && |dat| > 0 {
        sockSta := CanSendData;
      } else if sockSta == CanSendData {
        sockSta := WaitUsbData;
      }
    }

    /** dev_dat_so_write_proc; every other negative code is only logged. */
    method SoWriteProc(pack: DevPack)
      requires Valid()
      modifies this`sockSta, this`bufHeadIndex, this`bufWrIndex, bufDev, peer
      ensures Valid() && sockrpc == old(sockrpc)
      ensures Model() == OnWriteReply(old(Model()), pack)
    {
      hide OnAck, OnRewind, Walk;
      if sockrpc == null {
        return;
      }
      if pack.sta >= 0 {
        WriteDone(pack.pos + pack.sta);
      } else if pack.sta == WRONG_POSITION {
        Rewind(pack.pos);
      }
    }

    /** sock_dev_pack_proc, less the ioctl replies. */
    method PackProc(pack: DevPack)
      requires Valid()
      modifies this`sockSta, this`hasOpened, this`freeflag, this`bufHeadIndex, this`bufWrIndex, bufDev, peer
      ensures Valid() && sockrpc == old(sockrpc)
      ensures Model() == OnPack(old(Model()), pack)
    {
      hide OnWriteReply, Walk;
      if pack.opt == SoClose {
        freeflag := true;
        return;
      }
      match sockSta
      case WaitUsbCmd =>
        if sockrpc == null {
          sockSta := NeedSendClose;
          return;
        }
        if pack.sta == 0 {
          sockSta := CanSendData;
          hasOpened := true;
          bufDev.Reset();
        } else {
          sockSta := NotInit;
        }
      case WaitUsbData | CanSendData =>
        if sockrpc == null {
          sockSta := NeedSendClose;
          return;
        }
        if pack.opt == SoWrite {
          SoWriteProc(pack);
        }
      case _ =>
    }

    /** sock_dev_pack_chk followed by the handler it selects. */
    method Dispatch(pack: DevPack)
      requires Valid()
      modifies this`sockSta, this`hasOpened, this`freeflag, this`bufHeadIndex, this`bufWrIndex, bufDev, peer
      ensures Valid() && sockrpc == old(sockrpc)
      ensures Model() == Receive(old(Model()), pack)
    {
      if hasOpened && pack.opt == SoOpen {
        return;
      }
      PackProc(pack);
    }

    /** _sock_dev_pack_make, less the ioctl requests; a result is a so_write pack. */
    method PackMake() returns (pack: Option<Packet>)
      requires Valid()
      modifies this`sockSta, this`freeflag, this`bufWrIndex
      ensures Valid() && sockrpc == old(sockrpc)
      ensures (Model(), pack) == MakePack(old(Model()))
    {
      hide Walk;
      pack := None;
      match sockSta
      case NeedSendCmd =>
        sockSta := WaitUsbCmd;
      case NeedSendClose =>
        if !hasOpened {
          freeflag := true;
        } else {
          sockSta := WaitUsbClose;
        }
      case CanSendData =>
        var data := bufDev.GetData((bufWrIndex - bufHeadIndex) % U32, maxData);
        if |data| <= 0 {
          sockSta := WaitUsbData;
        } else {
          pack := Some(Packet(bufWrIndex, data));
          bufWrIndex := bufWrIndex + |data|;
        }
      case _ =>
    }

    /** sock_dev_need_write, less the ioctl requests. */
    method NeedWriteNow() returns (need: bool)
      requires Valid()
      modifies this`freeflag
      ensures Valid() && sockrpc == old(sockrpc)
      ensures (Model(), need) == NeedWrite(old(Model()))
    {
      hide Walk;
      match sockSta
      case NeedSendCmd =>
        need := true;
      case NeedSendClose =>
        need := hasOpened;
        if !hasOpened {
          freeflag := true;
        }
      case CanSendData =>
        need := false;
        if sockrpc != null {
          var data := bufDev.GetData((bufWrIndex - bufHeadIndex) % U32, 1);
          need := |data| > 0;
        }
      case _ =>
        need := false;
    }

    /** The socket's part of sock_rpc_node_end. */
    method RpcGone()
      requires Valid()
      modifies this`sockSta, this`sockrpc
      ensures Valid() && Model() == Detach(old(Model()))
    {
      sockSta := NeedSendClose;
      sockrpc := null;
    }
  }
}
