/** The UART device of daemon/dev8030/uart8030: the receive ring with its four offsets, updated in
    place. Every method is proved to do what UartSpec says. */
module UartDev {
  import opened Bytes
  import opened RingBuffers
  import opened UartSpec
  import opened UartStream

  datatype Ret = ErrorNone | PktNotComp | PktDrop

  class Uart8030Info {
    const rb: RingBuffer
    var processDone: bool
    var analyzeOffset: nat
    var newPktOffset: nat
    var newHdrFound: bool
    var totalBytes: nat
    var okBytes: nat
    var okPkts: nat
    var dropGapBytes: nat
    var dropFlenBytes: nat
    var dropChecksumBytes: nat
    var delivered: seq<seq<byte>>

    /** The packet offset is where the ring is read from, and the analyze point stands there too
        unless a header was found: then it is beyond the header, inside the packet, and not beyond
        what was written. */
    ghost predicate Valid()
      reads this, rb, rb.buffer
    {
      && rb.Valid()
      && rb.dataLen < rb.buffer.Length
      && newPktOffset == rb.read
      && analyzeOffset < rb.buffer.Length
      && (!newHdrFound ==> analyzeOffset == rb.read)
      && (newHdrFound ==>
            && MSG_HEADER_SIZE <= Distance(rb.read, analyzeOffset) <= rb.dataLen
            && Distance(rb.read, analyzeOffset) < MSG_HEADER_SIZE + Le16(rb.Contents(), 5))
    }

    ghost function Model(): Rx
      requires rb.Valid()
      reads this, rb, rb.buffer
    {
      Rx(rb.Contents(), newHdrFound, delivered, okBytes, dropGapBytes, dropFlenBytes, dropChecksumBytes)
    }

    ghost predicate Accounted()
      reads this, rb
    {
      totalBytes == okBytes + dropGapBytes + dropFlenBytes + dropChecksumBytes + rb.dataLen
    }

    constructor (size: nat)
      requires 0 < size
      ensures Valid() && Accounted() && Model() == FRESH && fresh(rb) && fresh(rb.buffer) && rb.buffer.Length == size
      ensures rb.write == 0 && okPkts == 0
    {
      rb := new RingBuffer(size);
      processDone, analyzeOffset, newPktOffset, newHdrFound := false, 0, 0, false;
      totalBytes, okBytes, okPkts, dropGapBytes, dropFlenBytes, dropChecksumBytes := 0, 0, 0, 0, 0, 0;
      delivered := [];
    }

    /** RINGBUFFER_DISTANCE. */
    function Distance(a: nat, b: nat): nat
      requires a < rb.buffer.Length && b < rb.buffer.Length
      reads rb
    {
      (b + rb.buffer.Length - a) % rb.buffer.Length
    }

    /** RB_POS_MOV. */
    function PosMov(ori: nat, off: nat): nat
      requires 0 < rb.buffer.Length
      reads rb
    {
      (ori + off) % rb.buffer.Length
    }

    lemma MoveTwice(a: nat, i: nat, j: nat)
      requires a < rb.buffer.Length && i + j <= rb.buffer.Length
      ensures PosMov(PosMov(a, i), j) == PosMov(a, i + j)
    {
      MoveAndMeasure(a, i, j, rb.buffer.Length);
      ModIsWrap(a + (i + j), rb.buffer.Length);
    }

    /** The byte off places from position pos, which lies from places into the ring's contents. */
    method ByteAt(pos: nat, off: nat, ghost from: nat) returns (b: byte)
      requires rb.Valid() && pos == PosMov(rb.read, from) && from + off < rb.dataLen
      ensures b == rb.Contents()[from + off]
    {
      MoveAndMeasure(rb.read, from, off, rb.buffer.Length);
      b := rb.buffer[PosMov(pos, off)];
    }

    /** uart_find_sync_head over the last len bytes of the ring, which begin at the analyze point. */
    method FindSyncHead(len: nat) returns (found: bool, skipBytes: nat)
      requires rb.Valid() && 5 <= len <= rb.dataLen
      requires analyzeOffset == PosMov(rb.read, rb.dataLen - len)
      ensures var r := FindSync(rb.Contents()[rb.dataLen - len..], 0);
        found == r.Some? && skipBytes == if r.Some? then r.value else len - 4
    {
      hide PosMov, Walk;
      ghost var from := rb.dataLen - len;
      ghost var s := rb.Contents()[from..];
      var i := 0;
      while i < len - 4
        invariant i <= len - 4
        invariant FindSync(s, 0) == FindSync(s, i)
      {
        var j := 0;
        while j < 5
          invariant j <= 5
          invariant 0 < j ==> s[i] == SYNC[0]
          invariant 1 < j ==> s[i + 1] == SYNC[1]
          invariant 2 < j ==> s[i + 2] == SYNC[2]
          invariant 3 < j ==> s[i + 3] == SYNC[3]
          invariant 4 < j ==> s[i + 4] == SYNC[4]
        {
          var b := ByteAt(analyzeOffset, i + j, from);
          assert b == s[i + j];
          if b != SYNC[j] {
            break;
          }
          j := j + 1;
        }
        if j == 5 {
          return true, i;
        }
        i := i + 1;
      }
      return false, len - 4;
    }

    /** uart_pkt_check_sum_valid_in_rb for the bytes that follow the header. */
    method ChecksumValid(dataSize: nat, inSum: nat) returns (valid: bool)
      requires rb.Valid() && newPktOffset == rb.read && MSG_HEADER_SIZE + dataSize <= rb.dataLen
      ensures valid == (inSum == Checksum(rb.Contents()[MSG_HEADER_SIZE..MSG_HEADER_SIZE + dataSize]))
    {
      var start := PosMov(newPktOffset, MSG_HEADER_SIZE);
      hide PosMov, Total, Walk;
      ghost var s := rb.Contents()[MSG_HEADER_SIZE..MSG_HEADER_SIZE + dataSize];
      var cs: nat := 0;
      for i := 0 to dataSize
        invariant cs == Total(s[..i])
      {
        TotalNext(s, i);
        var b := ByteAt(start, i, MSG_HEADER_SIZE);
        cs := cs + b as int;
      }
      assert s[..dataSize] == s;
      valid := inSum == cs % 0x1_0000;
    }

    /** The two little-endian bytes at offset off of the packet under way. */
    method PktWord(off: nat) returns (n: nat)
      requires rb.Valid() && newPktOffset == rb.read && off + 2 <= rb.dataLen
      ensures n == Le16(rb.Contents(), off)
    {
      ModIsWrap(rb.read, rb.buffer.Length);
      var lo := ByteAt(newPktOffset, off, 0);
      var hi := ByteAt(newPktOffset, off + 1, 0);
      n := lo as int + 256 * hi as int;
    }

    /** What FindPacket leaves behind: the offsets have moved past the n bytes to take. */
    ghost predicate MovedPast(n: nat)
      reads this, rb
    {
      && rb.Valid()
      && n <= rb.dataLen
      && newPktOffset == PosMov(rb.read, n)
      && analyzeOffset == newPktOffset
      && !newHdrFound
    }

    /** The drop label of uart_find_packet: the offsets skip the header's sync, then everything before
        the next one; without a next one the pass ends. */
    method DropAndStop(why: Reason) returns (len: nat)
      requires rb.Valid() && newPktOffset == analyzeOffset == rb.read
      requires MSG_HEADER_SIZE <= rb.dataLen < rb.buffer.Length
      modifies `analyzeOffset, `newPktOffset, `newHdrFound, `processDone
      ensures MovedPast(len)
      ensures var o := Skip(rb.Contents(), why);
        o.n == len && o.why == why && processDone == (old(processDone) || o.last)
    {
      hide Walk, PosMov, FindSync;
      analyzeOffset := PosMov(analyzeOffset, 5);
      var found, skip := FindSyncHead(rb.dataLen - 5);
      if !found {
        processDone := true;
      }
      len := skip + 5;
      MoveTwice(rb.read, 5, skip);
      analyzeOffset := PosMov(analyzeOffset, skip);
      newPktOffset := PosMov(newPktOffset, len);
      newHdrFound := false;
    }

    /** The ring distances around the analyze point add up to the bytes held. */
    lemma Distances()
      requires Valid()
      ensures Distance(newPktOffset, analyzeOffset) + Distance(analyzeOffset, rb.write) == rb.dataLen
      ensures PosMov(newPktOffset, Distance(newPktOffset, analyzeOffset)) == analyzeOffset
      ensures PosMov(newPktOffset, rb.dataLen) == rb.write
      ensures Distance(rb.read, rb.write) == rb.dataLen && rb.write < rb.buffer.Length
      ensures !newHdrFound ==> Distance(newPktOffset, analyzeOffset) == 0
    {
      var size := rb.buffer.Length;
      ModIsWrap(analyzeOffset + size - newPktOffset, size);
      ModIsWrap(rb.write + size - analyzeOffset, size);
      ModIsWrap(rb.write + size - rb.read, size);
      ModIsWrap(newPktOffset + Distance(newPktOffset, analyzeOffset), size);
      ModIsWrap(newPktOffset + rb.dataLen, size);
    }

    /** The counters of dropped bytes after n more for this reason. */
    twostate predicate Counted(n: nat, why: Reason)
      reads this
    {
      && dropGapBytes == old(dropGapBytes) + (if why.Gap? then n else 0)
      && dropFlenBytes == old(dropFlenBytes) + (if why.FrameLength? then n else 0)
      && dropChecksumBytes == old(dropChecksumBytes) + (if why.BadChecksum? then n else 0)
    }

    /** The outcome o was acted on: offsets moved, counters charged, the result says the same. */
    twostate predicate Did(o: Outcome, ret: Ret, len: nat)
      reads this, rb, rb.buffer
    {
      match o
      case NotComplete(h) => ret == PktNotComp && Valid() && newHdrFound == h && processDone && Counted(0, Gap)
      case Packet(n, last) =>
        ret == ErrorNone && len == n && MovedPast(n) && processDone == (old(processDone) || last) && Counted(0, Gap)
      case Drop(n, last, why) =>
        ret == PktDrop && len == n && MovedPast(n) && processDone == (old(processDone) || last) && Counted(n, why)
    }

    /** The bytes fit the packet whose header was accepted earlier, or are not all there yet. */
    method ContinuePacket() returns (ret: Ret, len: nat)
      requires Valid() && newHdrFound
      modifies `analyzeOffset, `newPktOffset, `newHdrFound, `processDone
      ensures Did(Look(rb.Contents(), true, rb.buffer.Length), ret, len)
    {
      hide PosMov, Distance, Walk, Le16;
      len := 0;
      Distances();
      var fifoLeaveSize := Distance(analyzeOffset, rb.write);
      var framelen := PktWord(5);
      var curLen := Distance(newPktOffset, analyzeOffset);
      MoveTwice(newPktOffset, curLen, fifoLeaveSize);
      if curLen + fifoLeaveSize < framelen + MSG_HEADER_SIZE {
        analyzeOffset := PosMov(analyzeOffset, fifoLeaveSize);
        processDone := true;
        return PktNotComp, 0;
      }
      MoveTwice(newPktOffset, curLen, framelen + MSG_HEADER_SIZE - curLen);
      analyzeOffset := PosMov(analyzeOffset, framelen + MSG_HEADER_SIZE - curLen);
      len := TakePacket(framelen);
      ret := ErrorNone;
    }

    /** The end of uart_find_packet, reached with a complete packet. */
    method TakePacket(framelen: nat) returns (len: nat)
      requires rb.Valid() && newPktOffset == rb.read && framelen + MSG_HEADER_SIZE <= rb.dataLen < rb.buffer.Length
      requires analyzeOffset == PosMov(rb.read, framelen + MSG_HEADER_SIZE)
      modifies `newPktOffset, `newHdrFound, `processDone
      ensures len == framelen + MSG_HEADER_SIZE && MovedPast(len)
      ensures processDone == (old(processDone) || len == rb.dataLen)
    {
      newHdrFound := false;
      len := framelen + MSG_HEADER_SIZE;
      newPktOffset := PosMov(newPktOffset, len);
      ModIsWrap(rb.read + len, rb.buffer.Length);
      if newPktOffset == rb.write {
        processDone := true;
      }
    }

    /** No header is accepted yet: look for one. */
    method StartPacket() returns (ret: Ret, len: nat)
      requires Valid() && !newHdrFound
      modifies `analyzeOffset, `newPktOffset, `newHdrFound, `processDone,
               `dropGapBytes, `dropFlenBytes, `dropChecksumBytes
      ensures Did(Look(rb.Contents(), false, rb.buffer.Length), ret, len)
    {
      hide PosMov, Distance, Walk, Le16, Skip;
      len := 0;
      Distances();
      var fifoLeaveSize := Distance(analyzeOffset, rb.write);
      if fifoLeaveSize < MSG_HEADER_SIZE {
        processDone := true;
        return PktNotComp, 0;
      }
      StandingStill();
      assert rb.Contents()[0..] == rb.Contents();
      var found, skipBytes := FindSyncHead(fifoLeaveSize);
      if skipBytes != 0 {
        len := skipBytes;
        if !found {
          processDone := true;
        }
        analyzeOffset := PosMov(analyzeOffset, skipBytes);
        newPktOffset := PosMov(newPktOffset, skipBytes);
        dropGapBytes := dropGapBytes + skipBytes;
        return PktDrop, len;
      }
      ret, len := CheckPacket();
    }

    lemma StandingStill()
      requires rb.Valid()
      ensures PosMov(rb.read, 0) == rb.read
    {
      ModIsWrap(rb.read, rb.buffer.Length);
    }

    /** The rest of StartPacket: the ring begins with a header. */
    method CheckPacket() returns (ret: Ret, len: nat)
      requires Valid() && !newHdrFound && MSG_HEADER_SIZE <= rb.dataLen
      modifies `analyzeOffset, `newPktOffset, `newHdrFound, `processDone,
               `dropGapBytes, `dropFlenBytes, `dropChecksumBytes
      ensures Did(Check(rb.Contents(), rb.buffer.Length), ret, len)
    {
      hide PosMov, Distance, Walk, Le16, Skip, Checksum;
      len := 0;
      Distances();
      var fifoLeaveSize := Distance(analyzeOffset, rb.write);
      var framelen := PktWord(5);
      if framelen == 0 || framelen > MSG_CMD_LENGTH_MAX || framelen > rb.buffer.Length {
        len := DropAndStop(FrameLength);
        dropFlenBytes := dropFlenBytes + len;
        return PktDrop, len;
      }
      newHdrFound := true;
      if MSG_HEADER_SIZE + framelen > fifoLeaveSize {
        analyzeOffset := PosMov(analyzeOffset, fifoLeaveSize);
        processDone := true;
        return PktNotComp, 0;
      }
      var checksum := PktWord(13);
      var valid := ChecksumValid(framelen, checksum);
      if !valid {
        len := DropAndStop(BadChecksum);
        dropChecksumBytes := dropChecksumBytes + len;
        return PktDrop, len;
      }
      analyzeOffset := PosMov(analyzeOffset, framelen + MSG_HEADER_SIZE);
      len := TakePacket(framelen);
      ret := ErrorNone;
    }

    /** uart_find_packet: what to take from the ring next. The ring itself is left alone. */
    method FindPacket() returns (ret: Ret, len: nat)
      requires Valid()
      modifies `analyzeOffset, `newPktOffset, `newHdrFound, `processDone,
               `dropGapBytes, `dropFlenBytes, `dropChecksumBytes
      ensures Did(Look(rb.Contents(), old(newHdrFound), rb.buffer.Length), ret, len)
    {
      if newHdrFound {
        ret, len := ContinuePacket();
      } else {
        ret, len := StartPacket();
      }
    }

    /** Pops what FindPacket found. */
    method PopFound(len: nat) returns (dataBuf: seq<byte>)
      requires MovedPast(len) && rb.dataLen < rb.buffer.Length
      modifies rb
      ensures Valid()
      ensures dataBuf == old(rb.Contents())[..len] && rb.Contents() == old(rb.Contents())[len..]
    {
      ghost var s := rb.Contents();
      dataBuf := rb.Out(len);
      assert s == dataBuf + rb.Contents();
    }

    /** One round of uart_data_process; stop says that the pass is over. */
    method TakeNext() returns (stop: bool)
      requires Valid() && !processDone
      modifies `analyzeOffset, `newPktOffset, `newHdrFound, `processDone, `dropGapBytes, `dropFlenBytes,
               `dropChecksumBytes, `okBytes, `okPkts, `delivered, rb
      ensures Valid() && RxOk(old(Model()))
      ensures match Look(old(rb.Contents()), old(newHdrFound), rb.buffer.Length)
        case NotComplete(h) => stop && Model() == old(Model()).(hdr := h)
        case Drop(n, last, why) => stop == last && Model() == Dropped(old(Model()), n, why)
        case Packet(n, last) => stop == last && Model() == Delivered(old(Model()), n)
      ensures processDone == stop && okPkts - |delivered| == old(okPkts - |delivered|)
    {
      hide Look, Distance, PosMov, Walk;
      var ret, accLen := FindPacket();
      if ret.PktNotComp? {
        return true;
      }
      var dataBuf := PopFound(accLen);
      if ret.ErrorNone? {
        okPkts := okPkts + 1;
        okBytes := okBytes + accLen;
        delivered := delivered + [dataBuf[MSG_HEADER_SIZE..]];
      }
      stop := processDone;
    }

    /** uart_data_process: one pass over the ring, handing every packet's payload to the receiver. */
    method DataProcess()
      requires Valid()
      modifies `analyzeOffset, `newPktOffset, `newHdrFound, `processDone, `dropGapBytes, `dropFlenBytes,
               `dropChecksumBytes, `okBytes, `okPkts, `delivered, rb
      ensures Valid() && RxOk(old(Model()))
      ensures Model() == Process(old(Model()), rb.buffer.Length)
      ensures okPkts - |delivered| == old(okPkts - |delivered|)
    {
      hide Look, Distance, PosMov, Walk;
      processDone := false;
      while !processDone
        invariant Valid() && okPkts - |delivered| == old(okPkts - |delivered|)
        invariant processDone ==> Model() == Process(old(Model()), rb.buffer.Length)
        invariant !processDone ==> Process(Model(), rb.buffer.Length) == Process(old(Model()), rb.buffer.Length)
        decreases !processDone, rb.dataLen
      {
        var stop := TakeNext();
        if stop {
          return;
        }
      }
    }

    /** How many bytes the next read may store in one piece: one place always stays free. */
    function RoomAhead(): nat
      requires rb.Valid() && rb.dataLen < rb.buffer.Length
      reads rb
    {
      var size := rb.buffer.Length;
      if (rb.write + 1) % size == rb.read then 0
      else if rb.read > rb.write then rb.read - rb.write - 1
      else if rb.read == 0 then size - rb.write - 1
      else size - rb.write
    }

    /** It is what lies before the end of the storage, less what must stay free: it runs out only when the ring holds all but one of its places. */
    lemma RoomLeft()
      requires rb.Valid() && rb.dataLen < rb.buffer.Length
      ensures rb.write + RoomAhead() <= rb.buffer.Length && rb.dataLen + RoomAhead() < rb.buffer.Length
      ensures rb.dataLen + 1 < rb.buffer.Length ==> 0 < RoomAhead()
      ensures RoomAhead() == Min(rb.buffer.Length - rb.write, rb.buffer.Length - 1 - rb.dataLen)
    {
      ModIsWrap(rb.write + 1, rb.buffer.Length);
    }

    /** The driver stores bytes at the write position, and the ring's counters follow. */
    method StoreRead(bytes: seq<byte>)
      requires rb.Valid() && rb.dataLen < rb.buffer.Length && 0 < |bytes| <= RoomAhead()
      modifies rb, rb.buffer
      ensures rb.Valid() && rb.Contents() == old(rb.Contents()) + bytes && rb.read == old(rb.read)
      ensures rb.dataLen < rb.buffer.Length
    {
      RoomLeft();
      ghost var was := rb.buffer[..];
      rb.Store(rb.write, bytes);
      WalkAppend(was, rb.buffer[..], rb.read, rb.dataLen, bytes);
      ModIsWrap(rb.write + |bytes|, rb.buffer.Length);
      rb.dataLen := rb.dataLen + |bytes|;
      rb.write := (rb.write + |bytes|) % rb.buffer.Length;
    }

    /** The bookkeeping of a read. */
    method Receive(bytes: seq<byte>)
      requires Valid() && 0 < |bytes| <= RoomAhead()
      modifies `totalBytes, rb, rb.buffer
      ensures Valid() && Model() == old(Model()).(buf := old(rb.Contents()) + bytes)
      ensures totalBytes == old(totalBytes) + |bytes| && (old(Accounted()) ==> Accounted())
    {
      hide RoomAhead, Walk;
      totalBytes := totalBytes + |bytes|;
      StoreRead(bytes);
      assert newHdrFound ==> Le16(rb.Contents(), 5) == Le16(old(rb.Contents()), 5);
    }

    /** uart_ev_loop with line waiting at the driver, which returns at most most bytes of it: what was
        read is processed at once. A ring with room for a largest packet never refuses to read. */
    method EvLoop(line: seq<byte>, most: nat) returns (len: nat)
      requires Valid()
      modifies `analyzeOffset, `newPktOffset, `newHdrFound, `processDone, `dropGapBytes, `dropFlenBytes,
               `dropChecksumBytes, `okBytes, `okPkts, `delivered, `totalBytes, rb, rb.buffer
      ensures Valid() && len == Min(Min(|line|, most), old(RoomAhead()))
      ensures RxOk(old(Model())) && Model() == if len == 0 then old(Model()) else Feed(old(Model()), line[..len], rb.buffer.Length)
      ensures totalBytes == old(totalBytes) + len && (old(Accounted()) ==> Accounted())
      ensures okPkts - |delivered| == old(okPkts - |delivered|)
      ensures UartSpec.Waiting(old(Model())) && MSG_HEADER_SIZE + MSG_CMD_LENGTH_MAX < rb.buffer.Length ==>
        UartSpec.Waiting(Model()) && (line != [] && most > 0 ==> len > 0)
    {
      hide RoomAhead, Walk, Distance, Process;
      RoomLeft();
      len := Min(Min(|line|, most), RoomAhead());
      if len <= 0 {
        return;
      }
      Receive(line[..len]);
      ProcessCounts(Model(), rb.buffer.Length);
      if UartSpec.Waiting(old(Model())) {
        ProcessWaits(Model(), rb.buffer.Length);
      }
      DataProcess();
    }
  }

  lemma FreshWaits()
    ensures UartSpec.Waiting(FRESH) && RxOk(FRESH)
    ensures forall size :: FeedAll(FRESH, [], size) == FRESH
    ensures Flatten<byte>([]) == []
  {
  }

  lemma OneMoreRead(chunks: seq<seq<byte>>, rest: seq<byte>, len: nat, size: nat)
    requires len <= |rest|
    ensures FeedAll(FRESH, chunks + [rest[..len]], size) == Feed(FeedAll(FRESH, chunks, size), rest[..len], size)
    ensures Flatten(chunks + [rest[..len]]) + rest[len..] == Flatten(chunks) + rest
    ensures |Flatten(chunks + [rest[..len]])| == |Flatten(chunks)| + len
  {
    FeedAllAppend(FRESH, chunks, rest[..len], size);
    FlattenAppend(chunks, rest[..len]);
  }

  /** A fresh device reading a line of noise, false headers and frames, each read returning as much as the driver
      happens to have: every payload is delivered, in order, and every byte is accounted for. */
  method ReceiveLine(size: nat, line: seq<byte>, ghost segs: seq<Segment>, ghost tail: seq<byte>)
    returns (d: Uart8030Info)
    requires MSG_HEADER_SIZE + MSG_CMD_LENGTH_MAX < size
    requires AllGood(segs) && Trails(tail) && line == Stream(segs, tail)
    ensures d.delivered == Payloads(segs) && d.okPkts == |segs|
    ensures d.Accounted() && d.totalBytes == |line|
  {
    hide Feed, FeedAll, Stream, AllGood, Trails, FindSync, UartSpec.Waiting, Walk, Flatten;
    hide Uart8030Info.Distance, Uart8030Info.RoomAhead;
    FreshWaits();
    d := new Uart8030Info(size);
    var rest := line;
    ghost var chunks: seq<seq<byte>> := [];
    while rest != []
      invariant d.Valid() && d.Accounted() && fresh(d) && fresh(d.rb) && fresh(d.rb.buffer)
      invariant d.rb.buffer.Length == size && UartSpec.Waiting(d.Model())
      invariant d.Model() == FeedAll(FRESH, chunks, size)
      invariant d.okPkts == |d.delivered|
      invariant Flatten(chunks) + rest == line && d.totalBytes == |Flatten(chunks)|
      decreases |rest|
    {
      var most: nat :| most > 0;
      var len := d.EvLoop(rest, most);
      OneMoreRead(chunks, rest, len, size);
      chunks := chunks + [rest[..len]];
      rest := rest[len..];
    }
    assert Flatten(chunks) == line;
    EveryCutDeliversThePayloads(chunks, segs, tail, size);
  }

  /** uart_pkt_check_sum_cal. */
  method CheckSumCal(data: seq<byte>) returns (cs: nat)
    ensures cs == Total(data)
  {
    cs := 0;
    for i := 0 to |data|
      invariant cs == Total(data[..i])
    {
      TotalNext(data, i);
      cs := cs + data[i] as int;
    }
    assert data[..|data|] == data;
  }

  /** uart_write: what goes onto the line. */
  method UartWrite(buff: seq<byte>) returns (writeData: array<byte>)
    requires MSG_HEADER_SIZE + |buff| < 0x1_0000
    ensures fresh(writeData) && writeData[..] == Frame(buff)
  {
    hide Total;
    var len := |buff|;
    writeData := new byte[MSG_HEADER_SIZE + len](_ => 0);
    var cs := CheckSumCal(buff);
    var checksum := cs % 0x1_0000;
    AddSyncHead(writeData, len, checksum);
    forall k | 0 <= k < len {
      writeData[MSG_HEADER_SIZE + k] := buff[k];
    }
    assert writeData[MSG_HEADER_SIZE..] == buff;
    assert writeData[..] == writeData[..MSG_HEADER_SIZE] + writeData[MSG_HEADER_SIZE..];
  }

  /** uart_add_sync_head with every id but the message's own zero. */
  method AddSyncHead(syncData: array<byte>, dataLen: nat, checksum: nat)
    requires MSG_HEADER_SIZE <= syncData.Length && dataLen < 0x1_0000 && checksum < 0x1_0000
    modifies syncData
    ensures syncData[..MSG_HEADER_SIZE] == SYNC + [dataLen % 256, dataLen / 256, XDS_MSG_ID_RPC, 0, 0, 0, 0, 0]
                                           + [checksum % 256, checksum / 256]
  {
    var fields := [dataLen % 256, dataLen / 256, XDS_MSG_ID_RPC, 0, 0, 0, 0, 0, checksum % 256, checksum / 256];
    forall k | 0 <= k < 5 {
      syncData[k] := SYNC[k];
    }
    forall k | 0 <= k < 10 {
      syncData[5 + k] := fields[k];
    }
    assert syncData[..5] == SYNC && syncData[5..15] == fields;
    assert syncData[..15] == syncData[..5] + syncData[5..15];
  }
}
