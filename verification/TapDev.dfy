/** The receive state of the TAP tunnel, updated byte by byte: STRU_BBComRxFIFO and the functions that
    drive it in app/tuntap/tuntap.cpp. */
module TapDev {
  import opened Bytes
  import opened UartSpec
  import opened UartStream
  import opened TapSpec

  datatype RxState = RxHeader | RxDataLength | RxMsgId | RxHeaderChecksum

  class BbComRxFifo {
    var findHeader: bool
    var receivingData: bool
    var dataLengthIndex: nat
    var headerBufIndex: nat
    const headerBuf: array<byte>
    var rxState: RxState
    var dataBufIndex: nat
    var dataLength: nat
    var checkSum: nat
    const rxDataBuf: array<byte>
    var overrun: bool
    var written: seq<seq<byte>>

    /** How much of the sync the header buffer holds: after a mismatch it holds one byte, which need
        not be the sync's first. */
    ghost function Matched(): nat
      requires headerBuf.Length == PACKET_HEADER_SIZE
      reads this, headerBuf
    {
      if headerBufIndex == 1 && headerBuf[0] != 0xFF then 0 else headerBufIndex
    }

    ghost predicate Valid()
      reads this, headerBuf
    {
      && headerBuf.Length == PACKET_HEADER_SIZE
      && rxDataBuf.Length == BBCOM_RX_BUF_SIZE + 1
      && headerBuf != rxDataBuf
      && (findHeader ==>
            && receivingData && rxState == RxHeader && headerBufIndex == 0
            && dataLength <= BBCOM_RX_BUF_SIZE && dataBufIndex <= rxDataBuf.Length
            && (0 < dataLength ==> dataBufIndex < dataLength))
      && (!findHeader ==> !receivingData && HeaderValid())
    }

    ghost predicate HeaderValid()
      requires headerBuf.Length == PACKET_HEADER_SIZE
      reads this, headerBuf
    {
      match rxState
      case RxHeader =>
        && headerBufIndex <= 4
        && (1 < headerBufIndex ==> headerBuf[..headerBufIndex] == SYNC[..headerBufIndex])
      case RxDataLength => headerBufIndex == 5 + dataLengthIndex && dataLengthIndex < 2
      case RxMsgId => headerBufIndex == 7
      case RxHeaderChecksum => 8 <= headerBufIndex < PACKET_HEADER_SIZE
    }

    ghost function Model(): Tap
      requires Valid()
      reads this, headerBuf, rxDataBuf
    {
      var mode :=
        if overrun then Overrun
        else if findHeader then Receiving(dataLength, rxDataBuf[..dataBufIndex])
        else if rxState == RxHeader then Hunting(Matched())
        else Heading(headerBuf[..headerBufIndex]);
      Tap(mode, written)
    }

    /** The zeroed static record. */
    constructor ()
      ensures Valid() && Model() == FRESH_TAP && fresh(headerBuf) && fresh(rxDataBuf)
    {
      findHeader, receivingData, overrun := false, false, false;
      dataLengthIndex, headerBufIndex, dataBufIndex, dataLength, checkSum := 0, 0, 0, 0, 0;
      rxState := RxHeader;
      written := [];
      headerBuf := new byte[PACKET_HEADER_SIZE](_ => 0);
      rxDataBuf := new byte[BBCOM_RX_BUF_SIZE + 1](_ => 0);
    }

    /** The BB_COM_RX_HEADER case of Network_ComFindHeader. */
    method FindSyncByte(data: byte)
      requires Valid() && !findHeader && rxState == RxHeader
      modifies `headerBufIndex, `rxState, `dataLengthIndex, headerBuf
      ensures Valid()
      ensures (if rxState == RxHeader then Hunting(Matched()) else Heading(headerBuf[..headerBufIndex]))
        == Hunt(old(Matched()), data)
    {
      // The source resets an index of five or more here; that never happens.
      assert headerBufIndex < 5;
      headerBuf[headerBufIndex] := data;
      headerBufIndex := headerBufIndex + 1;
      if headerBuf[..headerBufIndex] != SYNC[..headerBufIndex] {
        headerBuf[0] := data;
        headerBufIndex := 1;
        return;
      }
      if headerBufIndex == 5 {
        rxState := RxDataLength;
        dataLengthIndex := 0;
      }
    }

    /** The other cases: one more header byte, and at the last one the length. */
    method CollectHeaderByte(data: byte) returns (found: bool)
      requires Valid() && !findHeader && rxState != RxHeader
      modifies `headerBufIndex, `rxState, `dataLengthIndex, `dataLength, `checkSum, headerBuf
      ensures var header := old(headerBuf[..headerBufIndex]) + [data];
        if |header| < PACKET_HEADER_SIZE then
          !found && Valid() && rxState != RxHeader && headerBuf[..headerBufIndex] == header
        else
          && found == (Le16(header, 5) <= BBCOM_RX_BUF_SIZE) && dataLength == Le16(header, 5)
          && rxState == RxHeader && headerBufIndex == 0
    {
      found := false;
      headerBuf[headerBufIndex] := data;
      headerBufIndex := headerBufIndex + 1;
      match rxState
      case RxDataLength =>
        dataLengthIndex := dataLengthIndex + 1;
        if dataLengthIndex >= 2 {
          dataLengthIndex := 0;
          rxState := RxMsgId;
        }
      case RxMsgId =>
        rxState := RxHeaderChecksum;
      case RxHeaderChecksum =>
        if headerBufIndex == PACKET_HEADER_SIZE {
          ghost var header := old(headerBuf[..headerBufIndex]) + [data];
          assert headerBuf[5] == header[5] && headerBuf[6] == header[6];
          dataLength := headerBuf[6] as int * 256 + headerBuf[5] as int;
          checkSum := headerBuf[14] as int * 256 + headerBuf[13] as int;
          found := dataLength <= BBCOM_RX_BUF_SIZE;
          rxState := RxHeader;
          headerBufIndex := 0;
        }
    }

    /** The data half of the loop in BB_ComPacketDataAnalyze. A write past the data buffer is undefined
        in the source; the model stops there. */
    method CollectDataByte(data: byte)
      requires Valid() && findHeader && !overrun
      modifies `dataBufIndex, `receivingData, `findHeader, `overrun, `written, rxDataBuf
      ensures Valid() && Model() == Step(old(Model()), data)
    {
      if dataBufIndex == rxDataBuf.Length {
        overrun := true;
        return;
      }
      rxDataBuf[dataBufIndex] := data;
      dataBufIndex := dataBufIndex + 1;
      assert rxDataBuf[..dataBufIndex] == old(rxDataBuf[..dataBufIndex]) + [data];
      if dataBufIndex == dataLength {
        written := written + [rxDataBuf[..dataBufIndex]];
        dataBufIndex := 0;
        receivingData := false;
        findHeader := false;
      }
    }

    /** One byte through BB_ComPacketDataAnalyze. */
    method AnalyzeByte(data: byte)
      requires Valid()
      modifies this, headerBuf, rxDataBuf
      ensures Valid() && Model() == Step(old(Model()), data)
    {
      if overrun {
        return;
      }
      if !findHeader {
        if rxState == RxHeader {
          FindSyncByte(data);
        } else {
          findHeader := CollectHeaderByte(data);
          if findHeader {
            receivingData := true;
            dataBufIndex := 0;
          }
        }
      } else {
        CollectDataByte(data);
      }
    }

    /** BB_ComPacketDataAnalyze. */
    method PacketDataAnalyze(rxBuf: seq<byte>)
      requires Valid()
      modifies this, headerBuf, rxDataBuf
      ensures Valid() && Model() == Steps(old(Model()), rxBuf)
    {
      assert rxBuf[0..] == rxBuf;
      for i := 0 to |rxBuf|
        invariant Valid() && Steps(Model(), rxBuf[i..]) == Steps(old(Model()), rxBuf)
      {
        assert rxBuf[i..][0] == rxBuf[i] && rxBuf[i..][1..] == rxBuf[i + 1..];
        AnalyzeByte(rxBuf[i]);
      }
      assert rxBuf[|rxBuf|..] == [];
    }
  }

  /** The receive loop of bb_2_tun_thread: a stream of noise and frames arrives in any pieces, and
      exactly the payloads are written to the device, in order. */
  method TunnelReceive(pieces: seq<seq<byte>>, ghost segs: seq<Segment>, ghost tail: seq<byte>)
    returns (d: BbComRxFifo)
    requires (forall i :: 0 <= i < |segs| ==> Fits(segs[i])) && FindSync(tail, 0).None?
    requires Flatten(pieces) == TapStream(segs, tail)
    ensures d.written == Payloads(segs)
  {
    d := new BbComRxFifo();
    ghost var s := Flatten(pieces);
    assert pieces[0..] == pieces;
    for i := 0 to |pieces|
      invariant d.Valid() && fresh(d) && fresh(d.headerBuf) && fresh(d.rxDataBuf)
      invariant Steps(d.Model(), Flatten(pieces[i..])) == Steps(FRESH_TAP, s)
    {
      assert pieces[i..][0] == pieces[i] && pieces[i..][1..] == pieces[i + 1..];
      StepsConcat(d.Model(), pieces[i], Flatten(pieces[i + 1..]));
      d.PacketDataAnalyze(pieces[i]);
    }
    assert pieces[|pieces|..] == [];
    StreamWritesPayloads(segs, tail, []);
    assert [] + Payloads(segs) == Payloads(segs);
  }

  /** The framing of tun_2_bb_thread, around rdlen bytes already in place behind the header. */
  method FramePacket(pkgBuf: array<byte>, rdlen: nat)
    requires PACKET_HEADER_SIZE + rdlen <= pkgBuf.Length && rdlen < 0x1_0000
    modifies pkgBuf
    ensures pkgBuf[..PACKET_HEADER_SIZE + rdlen]
         == TapFrame(old(pkgBuf[PACKET_HEADER_SIZE..PACKET_HEADER_SIZE + rdlen]))
  {
    ghost var data := pkgBuf[PACKET_HEADER_SIZE..PACKET_HEADER_SIZE + rdlen];
    var total: nat := 0;
    for i := 0 to rdlen
      invariant total == Total(data[..i]) % 0x1_0000
      invariant unchanged(pkgBuf)
    {
      TotalNext(data, i);
      total := (total + pkgBuf[i + PACKET_HEADER_SIZE] as int) % 0x1_0000;
    }
    assert data[..rdlen] == data;
    var fields := [rdlen % 256, rdlen / 256, 0, 0, 0, 0, 0, 0, total % 256, total / 256];
    forall k | 0 <= k < 5 {
      pkgBuf[k] := SYNC[k];
    }
    forall k | 0 <= k < 10 {
      pkgBuf[5 + k] := fields[k];
    }
    assert pkgBuf[..5] == SYNC && pkgBuf[5..15] == fields;
    assert pkgBuf[..15] == pkgBuf[..5] + pkgBuf[5..15];
    assert pkgBuf[15..15 + rdlen] == data;
    assert pkgBuf[..15 + rdlen] == pkgBuf[..15] + pkgBuf[15..15 + rdlen];
  }
}
