# Verification of the AR8030 host daemon

The daemon relays between TCP clients and a radio device. Most of what can go wrong in it is about bytes
in order: rings, stream positions, framed packets, retries, and threads that take turns. This project
models these parts in Dafny and proves what they promise.

| files | what they model |
|---|---|
| Bytes, RingBuffers | the byte FIFO of `com/`, on a real array, refined to a byte sequence |
| SocketSpec, WindowInvariant, Sending, SockNode | one socket's transmit window: the steps on values, its invariant, what is sent, opened and closed, and the same steps on the daemon's records and ring |
| GoBackN, PoliteDevice, StrandedRun, Recovery, SocketWrite, WriteProgress | the window with application, lossy forward channel and device as a step machine over all runs; exactly when a run without loss is left parked, and such a run; how every run can still deliver everything; the client's blocking write on top |
| Framing, FrameCheck, UsbPack, Datagram | the two framed codecs, what their check is worth, and the datagram session |
| Reassembly, RpcSocket | frames from a stream that arrives in pieces |
| UartSpec, UartStream, UartCorrupt, UartCheck, UartDev | the UART receiver: on values, on streams of noise, false headers and frames, sound or corrupt, on a lone corrupt packet, and on the ring with four offsets |
| TapSpec, TapDev | the TAP receiver as a byte machine and as the record it is kept in |
| Scheduler, SchedulerScan, SchedulerRaces | the sender's scan and what it finds, the flag and the condition wait, with producers and receiver interleaved; the runs in which a change is overlooked or lost |
| FlashSpec, OtaLog, Ota | firmware writing by several threads, with retries, and when it gives up |
| ImageCheck, AbUpgrade, ImageLayout | the image check, the order of the A/B upgrade, and which bytes go where |
| CrcTable, Crc, Crc16, ConfigTransfer | the checksums and the configuration transfer |

The device is not part of the repository. It is assumed to accept a write pack only at the position it
expects, to acknowledge no position beyond what it accepted, and to answer -0x107 with exactly that
position. Its packs arrive in order; packs to it may get lost. In the firmware upgrade each exchange
may fail after having written any part of its bytes. In the configuration transfer it is an arbitrary
function of the request.

Where the source updates records in place the model is a class, and each method is proved against a
function on values (`SocketSpec`, `UartSpec`, `TapSpec`, `Drain`); the promises are proved about these
functions. What is concurrent in the source (the transmit path as a whole, the client's wait, the
scheduler) is a step function, and the theorems quantify over all lists of steps; the write threads of
the firmware upgrade are a loop that takes any thread's next step.

## Findings

- `daemon/sock_node.c:114-138`: the rewind is unchecked. It stays inside the ring for the device assumed
  here (`GoBackN.ReceiveStepKeeps`), and for a single step exactly when the position is inside the window
  (`WindowInvariant.RewindKeepsIff`).
- `daemon/sock_node.c:512-514`: with a payload limit of just eight bytes the first write parks the
  socket with nothing outstanding (`GoBackN.NeverStallsIff`). Even above that limit, and without any
  loss, a socket can stay parked with bytes left until the device speaks again: if and only if the device
  has by then acknowledged beyond the head (`PoliteDevice.StrandedIff`). That takes an acknowledgement
  that was ignored because the send position was below its end (`PoliteDevice.NeverStrandedUndiscarded`,
  `StrandedRun.AcknowledgedYetParked`); a later one may have made up for it. One more refusal and
  acknowledgement always repair it (`Recovery.NeverBeyondRepair`).
- `com/usbpack.c:130-166`: the scan goes on inside an incomplete pack, so that a pack carrying a pack can
  be missed depending on how the stream is cut (`RpcSocket.NestedPackOvertakes`); the exact condition is
  `Reassembly.CuttingNeverMattersIff`.
- `daemon/dev8030/uart8030/uart_pkt.c:256-283`: a packet whose header was accepted in an earlier pass is
  handed on without a look at its checksum, which happens exactly when some read ends behind the header
  and before the end (`UartCorrupt.CorruptIsDeliveredIff`). Either way the frames after it still arrive,
  as long as the packet holds no sync with a possible length behind it
  (`UartStream.SoundFramesAreDelivered`).
- `app/tuntap/tuntap.cpp:715-750`: a header that announces no data is accepted, and the receiver then
  stores whatever follows without writing it, until with the 4002nd byte it runs over the end of its
  data buffer (`TapSpec.EmptyFrameSilences`). What happens after that is undefined in the source.
- `daemon/sock_node.c:242-285`: the pack handler reads the socket's state, then its application, and then
  writes the state, all without a lock, and closes a socket without a notification. In a run of whole
  steps it never finds an application gone (`PoliteDevice.GoneMeansClosing`). Between its steps it does:
  - If the application ends between the two reads and its close is sent before the second, the sender
    blocks over a socket that wants to be closed again (`SchedulerRaces.ClosedAgainIsMissed`), until the
    100 ms timeout.
  - If it ends after both reads and before lines 253-261, these overwrite its close
    (`SchedulerRaces.CloseOverwritten`). After line 256 the next pack closes the socket silently, again
    unseen by the sender (`SchedulerRaces.OverwrittenCloseIsMissed`). After line 261 nothing ever closes
    it (`SchedulerRaces.FailedReplyLosesTheClose`).

  A sender overlooks a node exactly when the receiver has closed it silently and nothing has settled it
  since (`SchedulerRaces.WaitsInVainIff`). Reading both at once would not rule this out; handling each
  pack in one go, as under the mutex that the end of the application takes, would
  (`SchedulerRaces.HandledWholeLosesNothing`).
- `app/ar8030/session_socket.c:443-450`: a stream write is cut short just when its first pack is longer
  than the daemon's ring or its limit (`SocketWrite.ShortIffFirstPackHasNoRoom`). In datagram mode the
  same loop breaks off in the same way, but the call returns the full length.
- `app/ar8030/session_socket.c:521-544`: in datagram mode an empty datagram is consumed and counts as
  none, so that the reader goes to wait although the next datagram is there, exactly when the first one
  in the ring is empty (`Datagram.EmptyDatagramHoldsUpIff`).
- `app/ota_upgrade/chk.c:102-116`: an empty partition that starts where another one starts passes the
  check and is written over the other (`AbUpgrade.StaysInsideIff`, with such an image in
  `AbUpgrade.EmptyPartitionOverwrites`).
- `app/ota_upgrade/ota_upgrade.c:398-400`: an unmarked application is passed over without an error. If it
  is the one written first, a run to the end with a changed GPT leaves no usable pair
  (`AbUpgrade.UpgradeImage`).
- `examples/05_config_file/config_file.c:335-339`: the guard against an offset overflow cannot fire, and
  the 16-bit sequence number cannot wrap, because every productive round brings at least one byte.

## Model

| member | source | states |
|---|---|---|
| GoBackN.RunIsFaithful | daemon/sock_node.c:60-138 | In every run of application, daemon, a forward channel that loses packs, and the device: what the device accepted is a prefix of the accepted stream, the accepted lengths add up to it, the writes reported are the oldest ones with their own lengths, and all their bytes had reached the device |
| GoBackN.StepKeeps | daemon/sock_node.c:42-172 | Each of the twelve kinds of event keeps the whole invariant: window, device prefix, every pack under way carrying `S[pos..pos+len]`, every rewind under way between the head and what the device reached, and no acknowledgement ahead of a rewind queued behind it |
| GoBackN.StepGrows | daemon/sock_node.c:85-94 | No event takes back an accepted byte, an accepted length, a report or a byte the device took, and the head never moves back |
| GoBackN.Run | daemon/sock_node.c:42-172 | Invariant and growth over runs of any length, from any state in which the invariant holds |
| GoBackN.ReceiveStepKeeps | daemon/sock_node.c:114-138 | Every position processed as a rewind lies between the head and what the device reached, so the unchecked assignment never leaves the ring |
| GoBackN.TakeKeeps | daemon/sock_node.c:498-522 | Whatever part of a pack the device has room for, what it has accepted stays a prefix of the stream |
| GoBackN.NeverStallsIff | daemon/sock_node.c:512-514 | Over all runs the socket never parks with unsent bytes and nothing outstanding, if and only if a pack has room for at least one byte beside its position |
| PoliteDevice.StrandedIff | daemon/sock_node.c:74-138 | In every run without loss in which the device refuses each pack it does not take whole: parked with both channels empty and everything taken acknowledged, bytes are left unreleased if and only if the device has acknowledged beyond the head, so an acknowledgement was discarded; unsent bytes are left only then |
| PoliteDevice.NeverStrandedUndiscarded | daemon/sock_node.c:74-94 | If no acknowledgement arrives while the send position is below its end, such a run never parks with anything left unsent, untaken or unreleased |
| PoliteDevice.PoliteReaches | daemon/sock_node.c:114-138 | Over such runs, with no rewind and no doomed pack to come, the send position is not beyond what the device will then have |
| PoliteDevice.GoneMeansClosing | daemon/sock_node.c:246-285 | In no run of whole steps does the pack handler find an open or opening socket whose application is gone |
| StrandedRun.AcknowledgedYetParked | daemon/sock_node.c:114-138 | A run without loss, with a device that refuses each pack it does not take whole, that does end parked with unsent bytes, nothing under way and everything taken acknowledged |
| Recovery.NeverBeyondRepair | daemon/sock_node.c:42-172 | From every state a run can reach with the socket open at both ends and room in a pack, some continuation without loss, in which the application does nothing, delivers every accepted byte, reports every write and leaves the socket open |
| Recovery.Sync | daemon/sock_node.c:114-138 | A refusal and an acknowledgement of nothing new bring send position and device together, whatever went before |
| Recovery.OneMore | daemon/sock_node.c:498-522 | A synchronised socket with bytes unsent makes a pack that the device can take whole, and is synchronised again after its acknowledgement |
| Recovery.AllReported | daemon/sock_node.c:20-40 | When the device has everything and nothing finished is pending, every write has been reported with its length |
| WindowInvariant.PushKeeps | daemon/sock_node.c:395-428 | A write keeps the window invariant: ring equals `S[head..]`, `head <= wr <= |S|`, the next write node starts at `|S|`, pending nodes tile everything after the last report |
| WindowInvariant.AckKeeps | daemon/sock_node.c:74-94 | An acknowledgement keeps the invariant wherever it points, moves the head just when it is inside the window, and leaves no pending node that ends at or below the head |
| WindowInvariant.RewindKeepsIff | daemon/sock_node.c:114-138 | The unchecked rewind keeps the invariant if and only if the position named lies between the head and the end of the stream |
| WindowInvariant.MakePackKeeps | daemon/sock_node.c:430-528 | The pack maker keeps the invariant, and a pack it makes carries exactly the stream's bytes at its position |
| WindowInvariant.ReceiveKeeps | daemon/sock_node.c:220-328 | Any pack from the device keeps the invariant as long as a rewind points inside the window; in particular no second open reply ever empties the ring |
| WindowInvariant.OpenReplyKeeps | daemon/sock_node.c:253-263 | The open reply resets the ring only while the stream is still empty |
| WindowInvariant.CompleteKeeps | daemon/sock_node.c:20-40 | Reporting moves the oldest finished writes, in order and with their own lengths, from the pending side of the account to the reported one, and what remains still tiles the rest |
| WindowInvariant.NoneFinished | daemon/sock_node.c:20-40 | After the pass over the list no node that ends at or below the head remains, although the pass stops at the first unfinished one |
| WindowInvariant.TilesDrop | daemon/sock_node.c:20-40 | Taking nodes off the front of a tiling leaves a tiling that starts where the last one taken ended |
| WindowInvariant.EnterKeeps | daemon/sock_node.c:367-385 | A new write node continues the tiling with its accepted length |
| WindowInvariant.RequestsKeep | daemon/sock_node.c:430-460 | Opening, closing, losing the application and changing the limit keep the invariant and the stream |
| Sending.SendsIff | daemon/sock_node.c:498-522 | A socket that may send makes no pack if and only if nothing is unsent; whatever is outstanding, a pack it makes starts at the send position, holds the largest payload or all that is unsent, and leaves the socket sending |
| Sending.NeedWriteIff | daemon/sock_node.c:349-358 | The scan takes a sending socket for one that wants the sender if and only if a turn would make a pack |
| Sending.TurnsSendAll | daemon/sock_node.c:498-522 | One turn after another, with no reply in between, put exactly the unsent bytes on the channel, in order and in packs of which all but the last are full, and then park the socket |
| Sending.NewsIsSent | daemon/sock_node.c:60-101 | After any write and any acknowledgement, wherever it points, the turns that follow put every unsent byte on the channel |
| Sending.RewindResumesIff | daemon/sock_node.c:114-138 | After a rewind inside the window the socket sends if and only if the rewind named the very head and bytes are there |
| Sending.OpensIff | daemon/sock_node.c:239-271 | The open command is sent and answered: the socket opens if and only if the answer is zero, and otherwise is exactly as it was, so that it can be tried again |
| Sending.ClosesWhenAnswered | daemon/sock_node.c:479-497 | An open socket that its application closes or leaves is closed by one command and freed by its answer |
| Sending.NeverOpenedIsFreed | daemon/sock_node.c:482-487 | A socket whose application ends before it was ever opened is freed without a command |
| Sending.ClosedForGood | daemon/sock_node.c:275-278 | Over every run from a closing socket: nothing is accepted, sent, released or reported any more |
| SockNode.SockRpc.AddNewWrNode | daemon/sock_node.c:367-385 | The record after the call is the account with one more write of that length |
| SockNode.SockRpc.CheckSendCplPtr | daemon/sock_node.c:20-40 | The loop over the list reports exactly the leading writes that end at or below the head |
| SockNode.SockDev.constructor | daemon/sock_node.c:606-640 | A fresh socket is the initial window |
| SockNode.SockDev.PushData | daemon/sock_node.c:395-428 | On the real ring and list: the longest prefix is appended that ring and limit allow, counted and entered as one write node; it falls short only when the ring is full afterwards, or stands at its limit, or was above it before, or the limit counts as negative |
| SockNode.SockDev.RpcWrite | daemon/sock_node_rpc.c:338-354 | A write reaches an open socket, and the reply carries exactly how many bytes the stream has grown by; any other socket is left as it was and no length is replied |
| SockNode.SockDev.WriteDone | daemon/sock_node.c:60-101 | The success half of the reply handler does to the records what the acknowledgement does to the window, including the cast of the pop count to 32 bits |
| SockNode.SockDev.Rewind | daemon/sock_node.c:114-138 | The -0x107 case does to the records what the rewind does to the window |
| SockNode.SockDev.SoWriteProc | daemon/sock_node.c:42-172 | The reply handler, with the codes that change nothing |
| SockNode.SockDev.PackProc | daemon/sock_node.c:220-304 | The pack handler for every socket state, with the ring reset of the open reply |
| SockNode.SockDev.Dispatch | daemon/sock_node.c:306-328 | An open reply for an opened socket never reaches the handler |
| SockNode.SockDev.PackMake | daemon/sock_node.c:430-528 | The pack made, and the state after it, are those of the window model; the bytes are peeked at offset `wr - head` of the ring |
| SockNode.SockDev.NeedWriteNow | daemon/sock_node.c:330-365 | The answer to the scan, with its peek of one byte and the freeing of a socket to be closed unopened |
| SockNode.SockDev.RpcGone | daemon/sock_node_rpc.c:528-576 | The loss of the application leaves the socket to be closed |
| SocketWrite.WriteReturnsWhatWasDelivered | app/ar8030/session_socket.c:366-452 | Over every interleaving with the whole transmit path and after any earlier calls: a call that returns k has added exactly `inbuff[..k]` to the stream and the device has accepted all of it; a call cut short has k bytes acknowledged and at most one pack more in the stream |
| SocketWrite.ShortIffFirstPackHasNoRoom | app/ar8030/session_socket.c:432-446 | While the limit is not changed, a call returns less than it was given if and only if its first pack, of the largest payload or the whole buffer, is longer than the smaller of ring size and limit |
| SocketWrite.ShortIffAPackHadNoRoom | app/ar8030/session_socket.c:432-446 | With the limit changed in between: if and only if one of its packs was longer than the ring, or than the limit the ring had when the pack came; and once nothing of a pack has been accepted the call does not return |
| WriteProgress.CanWriteAllIff | app/ar8030/session_socket.c:432-446 | On a socket open at both ends, whatever happened before, a call can be brought to return its full length if and only if its first pack fits the ring and the limit |
| SocketWrite.PackFindsEmptyRing | app/ar8030/session_socket.c:432-446 | Every pack of a call reaches an empty ring, because everything before it has been reported |
| SocketWrite.ActKeeps | app/ar8030/session_socket.c:338-392 | Each action of client and network keeps: at most one pack outstanding, and the stream is what it was before the call followed by the bytes counted so far |
| SocketWrite.SettledIsAcknowledged | app/ar8030/session_socket.c:313-336 | When every write has been reported, everything in the stream has been acknowledged and accepted |
| SocketWrite.AbortedInsideOnePack | app/ar8030/session_socket.c:338-392 | A wait ended by the session leaves between k and k plus one pack of the caller's bytes in the stream |
| RingBuffers.RingBuffer.In | com/ringbuffer.c:81-107 | Appends the longest prefix that fits, in every wrap case, and returns its length |
| RingBuffers.RingBuffer.Out | com/ringbuffer.c:118-140 | Takes up to that many bytes off the front and hands out exactly these |
| RingBuffers.RingBuffer.GetData | com/ringbuffer_ext.c:16-42 | Copies the slice at an offset, cut to what there is, without removing it; nothing beyond the end |
| RingBuffers.RingBuffer.InWithLimit | com/ringbuffer_ext.c:44-62 | Appends, but never beyond the limit; a zero limit means none, and one of 2^31 or more, compared as a signed word, lets nothing in; whatever the ring holds, it takes less than it was given only if it is then full, or stands at its limit, or was above it before |
| RingBuffers.WalkAppend | com/ringbuffer.c:90-104 | Storing in one or two pieces at the write position appends to the byte sequence |
| RingBuffers.WalkSplit | com/ringbuffer.c:122-137 | Reading in two steps reads the same bytes as reading once, across the wrap |
| RingBuffers.WalkSlice | com/ringbuffer_ext.c:24-40 | The bytes from an offset on are a slice of the contents, across the wrap |
| UsbPack.PackRoundTrip | com/usbpack.c:30-71 | Unpacking inverts packing for every pack, with any bytes before and after it |
| UsbPack.UnpackRoundTrip | com/usbpack.c:124-196 | Every frame that is accepted is the packing of what is read from it, byte for byte |
| UsbPack.MakeUsbpack2Buff | com/usbpack.c:30-71 | Writes the encoded pack at the start of the buffer and nothing else, or nothing if the length is too small |
| UsbPack.MakeUsbpack2BuffHeadOnly | com/usbpack.c:73-113 | With the data already in place the result is the same encoded pack |
| UsbPack.UnpackUsbPack | com/usbpack.c:124-196 | Returns the pack at the smallest offset where a complete valid frame starts, and where it ends; -1 and -2 exactly when there is none |
| UsbPack.CheckFrame | com/usbpack.c:130-166 | The five checks of one offset accept exactly the complete valid frames |
| Framing.EncodeIsValid | com/usbpack.c:30-71 | An encoded frame of either kind is valid wherever it stands and gives back its header and data |
| Framing.ValidIsEncode | com/usbpack.c:124-196 | A valid frame is the encoding of its own header and data |
| FrameCheck.OneByteIsCaughtIff | com/usbpack.c:130-166 | Of a valid frame of either kind, a single changed byte is noticed if and only if it is not one of the data |
| FrameCheck.EmptyPack | com/usbpack.c:30-71 | The bytes of the pack without content |
| FrameCheck.SamplePack | com/usbpack.c:30-71 | The bytes of a pack with every field different: little-endian length, big-endian words |
| FrameCheck.SampleDatagram | app/ar8030/session_socket_datagram_ext.c:20-47 | The bytes of a datagram |
| Framing.XorCheckOf | com/usbpack.c:21-28 | The loop computes the exclusive or of the bytes, whose meaning is `FrameCheck.OneByteIsCaughtIff` |
| Reassembly.CuttingNeverMattersIff | daemon/sock_node_rpc.c:382-421 | Every cutting of a stream into pieces yields the frames of the whole stream if and only if no valid frame is overtaken by one that starts later and is complete sooner |
| Reassembly.FeedIsDrain | daemon/sock_node_rpc.c:382-421 | Under that condition the carry-over reader returns for any pieces the same frames, in the same order, and keeps the same rest as for one piece |
| Reassembly.DisjointEndsFirst | daemon/sock_node_rpc.c:382-421 | Streams whose valid frames do not overlap meet the condition |
| Reassembly.DrainTwice | daemon/sock_node_rpc.c:398-420 | Scanning, carrying the rest over, and scanning again equals scanning once |
| Reassembly.OvertakenCut | com/usbpack.c:130-166 | If the condition fails there is a cut that changes the result, and the lemma names it: the scan goes on inside an incomplete pack |
| RpcSocket.SockRpcReader.Read | daemon/sock_node_rpc.c:382-421 | One call on the real buffer: just as many of the oldest bytes give way as do not fit, then every complete pack is dispatched in order and the rest moved to the front |
| RpcSocket.SockRpcReader.TakePacks | daemon/sock_node_rpc.c:398-412 | The dispatch loop takes exactly the packs of the bytes saved |
| RpcSocket.ReadPieces | daemon/sock_node_rpc.c:382-421 | A connection that never overflows the buffer dispatches the packs of its pieces |
| RpcSocket.PiecesDoNotMatter | daemon/sock_node_rpc.c:382-421 | Two cuttings of one stream without overlapping valid frames dispatch the same packs in the same order |
| RpcSocket.NestedPackOvertakes | com/usbpack.c:130-166 | A pack whose data is a whole pack is read differently when the stream is cut one byte before its end |
| RpcSocket.StreamOfPacks | daemon/sock_node_rpc.c:398-412 | Packs sent back to back come out as exactly these packs with nothing left |
| Datagram.DatagramsInOrder | app/ar8030/session_socket.c:463-494 | For any arrivals and any reads: the k-th read that returns something returns the k-th datagram, cut only to the caller's room, and the ring is left with the frames of exactly the others |
| Datagram.ReadNext | app/ar8030/session_socket.c:463-494 | A read finds the next datagram exactly when all of it is there, and takes exactly its frame |
| Datagram.DatagramRoundTrip | app/ar8030/session_socket_datagram_ext.c:20-47 | An encoded datagram is valid anywhere in a stream and gives back its data |
| Datagram.MakeDatagramPack2Buff | app/ar8030/session_socket_datagram_ext.c:20-47 | Writes the encoded datagram and nothing else, or nothing if it does not fit |
| Datagram.UnpackDatagramPack | app/ar8030/session_socket_datagram_ext.c:49-100 | The first complete valid frame, its end and its data; -1 and -2 exactly when there is none |
| Datagram.SockSession.DatagramGetData | app/ar8030/session_socket.c:463-494 | On the real ring: the first datagram, cut to the caller's buffer, and the ring loses exactly what lies up to its frame's end; nothing changes when none is complete |
| Datagram.SockSession.BbSocketRead | app/ar8030/session_socket.c:496-560 | The read loop on the real ring: each time it is awake it consumes one datagram and returns it if it has any bytes |
| Datagram.EmptyDatagramHoldsUpIff | app/ar8030/session_socket.c:521-544 | With whole datagrams in the ring and nothing more arriving, the read stays waiting if and only if there is none or the first is empty, which is dropped |
| Datagram.ReadReturnsTheFirst | app/ar8030/session_socket.c:496-560 | With datagrams that are not empty, however they arrive: the read returns the first one, cut to the caller's room, with exactly the arrival that completes it, and takes just its frame; it still waits if and only if no arrival completed it |
| Datagram.SockSession.PushReceived | app/ar8030/session_socket.c:71-113 | Received bytes are appended as far as they fit |
| UartStream.SoundFramesAreDelivered | daemon/dev8030/uart8030/uart_pkt.c:227-428 | For every cutting into reads of a stream that also holds frames with wrong checksums: every payload of a frame with a right one is delivered, in order, and between them only payloads of the others, each dropped or delivered; no corrupt frame costs another frame as long as no sync inside it stands before a length that a frame may have |
| UartStream.EveryCutDeliversThePayloads | daemon/dev8030/uart8030/uart_pkt.c:227-428 | For every cutting into reads of a stream of noise, false headers and frames, every sync in the noise being followed by a length that no frame has: the receiver drops and resynchronises, and exactly the framed payloads are delivered, in order |
| UartCorrupt.CorruptIsDeliveredIff | daemon/dev8030/uart8030/uart_pkt.c:256-283 | A packet with a wrong checksum, read in any number of pieces, is delivered if and only if some read ends behind its header and before its end: the continuation path never compares the checksum |
| UartCheck.OneByteIsCaughtIff | daemon/dev8030/uart8030/uart_pkt.c:37-58 | Behind sync and length, a single changed byte of a sound frame makes its checksum wrong if and only if it is one of the checksum or of the payload |
| UartCheck.SampleFrame | daemon/dev8030/uart8030/uart_pkt.c:114-140 | The bytes of a frame as it goes onto the line |
| UartCheck.NoSyncIsGap | daemon/dev8030/uart8030/uart_pkt.c:297-322 | From a line without any sync, in any pieces, nothing is delivered and every byte dropped is counted as a gap |
| UartCheck.FalseHeaderIsCounted | daemon/dev8030/uart8030/uart_pkt.c:389-427 | What is dropped behind a header with an impossible length is counted under the wrong lengths |
| UartCheck.WrongChecksumIsCounted | daemon/dev8030/uart8030/uart_pkt.c:389-427 | What is dropped of a whole frame with a wrong checksum is counted under the wrong checksums |
| UartStream.LookAtNoise | daemon/dev8030/uart8030/uart_pkt.c:389-427 | Before a frame, also before one that follows a dropped corrupt one, the receiver drops up to the next sync, or a false header and everything up to the next sync behind it, and never a byte of the frame |
| UartStream.ProcessDelivers | daemon/dev8030/uart8030/uart_dev.c:215-295 | One pass over the ring delivers frames of what has arrived in order, leaves out only corrupt ones, and stays aligned with the rest of the stream |
| UartSpec.AllCounted | daemon/dev8030/uart8030/uart_dev.c:215-295 | Over any run: bytes received equal bytes in packets, in the three drop counters and in the ring, and the packet counter is the size of what was delivered |
| UartSpec.ProcessWaits | daemon/dev8030/uart8030/uart_pkt.c:227-428 | After a pass less than one packet is left unconsumed, whatever was read |
| UartDev.ReceiveLine | daemon/dev8030/uart8030/uart_dev.c:297-391 | The whole receive loop on the real ring, with the free-space rule choosing the size of every read: it ends, delivers every payload in order, and its counters account for every byte and packet |
| UartDev.Uart8030Info.FindPacket | daemon/dev8030/uart8030/uart_pkt.c:227-428 | With four offsets on the ring: acts exactly as the look at the byte sequence says, for packet, incomplete packet and each kind of drop |
| UartDev.Uart8030Info.ContinuePacket | daemon/dev8030/uart8030/uart_pkt.c:256-283 | The continuation of an accepted header moves the offsets to the packet's end or to the end of what was written |
| UartDev.Uart8030Info.StartPacket | daemon/dev8030/uart8030/uart_pkt.c:284-322 | Without an accepted header: too few bytes wait, bytes before the first sync are dropped and counted as a gap |
| UartDev.Uart8030Info.CheckPacket | daemon/dev8030/uart8030/uart_pkt.c:323-387 | The checks of length and checksum at a header, and both drop paths |
| UartDev.Uart8030Info.DropAndStop | daemon/dev8030/uart8030/uart_pkt.c:389-427 | A drop skips the bad header's sync and everything before the next one, and ends the pass if there is none |
| UartDev.Uart8030Info.FindSyncHead | daemon/dev8030/uart8030/uart_pkt.c:168-210 | The scan over the ring stops at the first sync, or four bytes before the end |
| UartDev.Uart8030Info.ChecksumValid | daemon/dev8030/uart8030/uart_pkt.c:37-60 | The sum over the wrapped ring is compared modulo 65536 |
| UartDev.Uart8030Info.Distances | daemon/dev8030/uart8030/uart_pkt.c:227-428 | At every loop head: `read == new_pkt_offset`, the analyze point lies between it and `write`, and the ring distances add up to `data_len` |
| UartDev.Uart8030Info.DataProcess | daemon/dev8030/uart8030/uart_dev.c:215-295 | The pop loop ends, with `data_len` as its measure, and delivers what the byte-sequence model delivers |
| UartDev.Uart8030Info.EvLoop | daemon/dev8030/uart8030/uart_dev.c:297-391 | A read is never larger than the free-space rule allows, is processed at once, keeps the accounting, and is never refused by a ring with room for a largest packet |
| UartDev.UartWrite | daemon/dev8030/uart8030/uart_dev.c:93-131 | What goes onto the line is the frame with its length and checksum |
| UartDev.AddSyncHead | daemon/dev8030/uart8030/uart_pkt.c:114-131 | The fifteen header bytes |
| TapSpec.HuntFindsFirst | app/tuntap/tuntap.cpp:596-690 | The byte machine accepts the first occurrence of the sync in any stream and not earlier |
| TapSpec.HuntKeepsLongest | app/tuntap/tuntap.cpp:628-646 | Going back to one matched byte after a mismatch, which may be the wrong byte, loses no match |
| TapSpec.StreamWritesPayloads | app/tuntap/tuntap.cpp:693-755 | A stream of noise and frames with payloads of 1 to 4000 bytes writes exactly the payloads, in order |
| TapSpec.FrameIsWrittenIff | app/tuntap/tuntap.cpp:693-755 | A frame of any length is written if and only if its payload has 1 to 4000 bytes |
| TapSpec.EmptyFrameSilences | app/tuntap/tuntap.cpp:715-750 | After a frame without data whatever follows is stored and not written, and exactly with the 4002nd byte the data buffer is overrun |
| TapSpec.StepsConcat | app/tuntap/tuntap.cpp:693-755 | How the bytes are cut into reads makes no difference |
| TapDev.BbComRxFifo.AnalyzeByte | app/tuntap/tuntap.cpp:693-755 | The fields and buffers of the record follow the byte machine |
| TapDev.BbComRxFifo.FindSyncByte | app/tuntap/tuntap.cpp:628-646 | The sync search on the header buffer, including the mismatch that leaves a wrong byte at index one |
| TapDev.BbComRxFifo.CollectHeaderByte | app/tuntap/tuntap.cpp:648-683 | The header is complete with its fifteenth byte and accepted if the length is at most 4000; the checksum is stored and not compared |
| TapDev.TunnelReceive | app/tuntap/tuntap.cpp:757-796 | The receive loop over any pieces writes exactly the payloads |
| TapDev.FramePacket | app/tuntap/tuntap.cpp:543-566 | The sender's header around the bytes already in the buffer makes the frame |
| Scheduler.NoLostWakeUp | daemon/usb_event_list.c:125-150 | In every interleaving of sender and producers: while the sender is blocked and not signalled, every listed node that wants something has a notification still to come, unless the last change of its state was one without; the scan starts over at most twice; mutual exclusion holds |
| Scheduler.StepKeeps | daemon/usb_event_list.c:80-206 | Each step of the threads, the recursive mutex, the condition wait and its timeout keeps: nothing behind the scan is overlooked unless the flag is set |
| Scheduler.ScanEnds | daemon/usb_event_list.c:125-150 | Every own step of the scanning sender brings the end nearer, and no step of another thread moves it away |
| Scheduler.FreedForcesRescan | daemon/sock_node.c:341-347 | A node that freed itself during the pass leads to another pass, and not to a third one |
| SchedulerScan.FindsTheFirst | daemon/usb_event_list.c:101-116 | Undisturbed, the scan finds the first node in the order of the list that wants to send or is freed |
| SchedulerScan.UndisturbedScanFindsIff | daemon/usb_event_list.c:125-150 | A scan from the front that nobody disturbs can end with a node found if and only if some listed node wants something, in the second pass if one has freed itself in the first |
| SchedulerScan.FreedLeavesForGood | daemon/usb_event_list.c:166-172 | A freed node that the sender has found is taken out, and in no run afterwards is it listed again |
| SchedulerScan.ReleaseTakesOutFreed | daemon/usb_event_list.c:166-172 | Exactly this node is taken out, and the others stay in their order; a node that is not freed stays |
| SchedulerScan.NeverListedTwice | daemon/usb_event_list.c:284-292 | In every run no node is listed twice |
| SchedulerRaces.WaitsInVainIff | daemon/sock_node.c:242-285 | Over all runs of sender, producers and receiver: a blocked sender with no notification to come for a listed node overlooks it if and only if the receiver has closed that node silently and nothing has settled it since |
| SchedulerRaces.SilentIsClosedAgain | daemon/sock_node.c:246-285 | A node counts as changed silently exactly when the receiver closed it again and nothing settled it since |
| SchedulerRaces.ClosedAgainIsMissed | daemon/sock_node.c:279-285 | A run in which this happens: the receiver sees the socket open, the application ends and notifies, its close is sent, and only then the receiver sees that the application is gone |
| SchedulerRaces.OverwrittenCloseIsMissed | daemon/sock_node.c:242-263 | The other such run, in which the receiver's two looks are never separated: the application ends between them and the reply that is entered after them, and the next pack has the socket closed silently |
| SchedulerRaces.CloseOverwritten | daemon/sock_node.c:253-263 | Entering the reply, of either kind, overwrites the close that the end of the application asked for, and the notified sender finds nothing to do and blocks |
| SchedulerRaces.FailedReplyLosesTheClose | daemon/sock_node.c:258-263 | If the overwriting reply says that the open failed, the close is lost for good: after a run with the looks never separated the socket stays listed without application and wanting nothing, whatever follows that is not a new request for it |
| SchedulerRaces.HandledWholeLosesNothing | daemon/sock_node.c:242-285 | In runs in which each pack is handled in one go, looks and writes together, no listed node that wants something is ever overlooked by a blocked sender |
| Ota.Upgrade.UpgradePartition | app/ota_upgrade/ota_upgrade.c:310-365 | For every interleaving, any lost or half-done exchange and any failed thread: at every point nothing outside the range is touched and each byte inside is the old or the new one; it fails if and only if some chunk has failed eleven times in a row or the device handle, a thread or the checksum was refused, so never when everything went well; otherwise the range holds the data and the device has confirmed the checksum; the parallel loop runs at most twice |
| OtaLog.WellStaysClean | app/ota_upgrade/ota_upgrade.c:326-364 | Where every exchange and request went well there is no reason to give up |
| OtaLog.TrackedExchange | app/ota_upgrade/ota_upgrade.c:178-211 | With several threads at once, each thread's own count is the number of failures in a row of its chunk, and the eleventh is the reason to give up |
| OtaLog.ChunksDiffer | app/ota_upgrade/ota_upgrade.c:178-211 | Different chunks of different threads stand at different addresses |
| Ota.Upgrade.DataTransmit | app/ota_upgrade/ota_upgrade.c:240-308 | The blocks written in parallel are there when no error is reported, and the left-over length is what the block rule leaves |
| Ota.Upgrade.RunThreads | app/ota_upgrade/ota_upgrade.c:159-215 | Any schedule of up to eight threads, created one by one while others already write, ends, and without an error has written every block and counted every byte |
| Ota.Upgrade.WorkerStep | app/ota_upgrade/ota_upgrade.c:178-211 | A thread's next step writes only its own chunk, its progress is what has arrived, it ends once any thread has failed, and it fails only with the eleventh exchange for a chunk |
| Ota.Upgrade.UpgradeWrite | app/ota_upgrade/ota_upgrade.c:126-157 | A chunk is given up exactly with its eleventh failed exchange; success means it is there |
| Ota.Upgrade.WriteRest | app/ota_upgrade/ota_upgrade.c:337-354 | The sequential rest after the parallel rounds |
| Ota.OthersStay | app/ota_upgrade/ota_upgrade.c:178-211 | A step of one thread leaves every other thread's written bytes in place |
| FlashSpec.ChunksTile | app/ota_upgrade/ota_upgrade.c:258-294 | The chunks of all threads tile the parallel range: each byte is in exactly one chunk of one thread |
| FlashSpec.ChunkFits | app/ota_upgrade/ota_upgrade.c:178-211 | A chunk has between 1 and 0x300 bytes and ends where the next one begins |
| FlashSpec.BlockRule | app/ota_upgrade/ota_upgrade.c:258-270 | At most eight threads write at once, and all eight from 32 KiB on; blocks are whole pages, and less than eight pages are left over |
| FlashSpec.TwoRoundsAtMost | app/ota_upgrade/ota_upgrade.c:258-265 | After two parallel rounds at most 0x1000 bytes are left, for every length |
| FlashSpec.OnlyChains | app/ota_upgrade/ota_upgrade.c:126-157 | Writing parts of the data one after another, any of them only in part, is writing a part of the data |
| AbUpgrade.UpgradeImage | app/ota_upgrade/ota_upgrade.c:598-665 | After every single exchange, in every run: the running pair of GPT copy and application is untouched, or the other pair is complete, unless the application written first is unmarked; in that case a run to the end with a new GPT leaves neither, and otherwise one is usable. Nothing outside the boot ROM's code and the two pairs ever changes; 0 is returned if and only if there was no reason to give up and both applications can be written or are unmarked, and then the boot ROM's code is there as well |
| AbUpgrade.UpgradeSlot | app/ota_upgrade/ota_upgrade.c:621-665 | One GPT copy and its application touch only that slot, and after every single exchange the application is as it was or the GPT copy is already whole |
| AbUpgrade.PartitionByName | app/ota_upgrade/ota_upgrade.c:367-424 | Loop and checks write the n-th segment for the n-th partition to be upgraded, nothing for an unmarked one, and fail for a missing or mismatched one; when it returns 0 the partition holds the very bytes of the file that this segment names |
| AbUpgrade.FindPart | app/ota_upgrade/ota_upgrade.c:380-390 | The loop returns the first partition of that name and counts the marked ones up to it |
| AbUpgrade.OutcomeOfFirst | app/ota_upgrade/ota_upgrade.c:392-415 | With n marked partitions before it, the first of that name is left if it is unmarked, refused if the n-th segment is for another place, and otherwise gets the bytes that the n-th segment names |
| ImageLayout.EachGetsItsOwn | app/ota_upgrade/ota_upgrade.c:380-418 | In an image put together from the contents of its partitions, each named partition that is marked is written with its own contents at its own place |
| ImageLayout.RenewedHoldsItsOwn | app/ota_upgrade/ota_upgrade.c:621-665 | So after a whole upgrade each slot holds the GPT copy at its place and its application's own contents |
| AbUpgrade.StaysInsideIff | app/ota_upgrade/ota_upgrade.c:380-418 | What is written to a named partition stays inside it if and only if there is nothing to write or the partition is not empty |
| AbUpgrade.EmptyPartitionOverwrites | app/ota_upgrade/chk.c:102-116 | An image that passes the check and has an empty app0 written over another partition |
| AbUpgrade.SlotsApart | app/ota_upgrade/ota_upgrade.c:621-665 | In a verified image with separate partitions the two slots and the boot ROM's code share no byte |
| AbUpgrade.RunningPhase | app/ota_upgrade/ota_upgrade.c:633-642 | While the running slot is written, the other one stays complete |
| AbUpgrade.SecondSlot | app/ota_upgrade/ota_upgrade.c:633-642 | Writing the running slot keeps the other GPT copy, and keeps one pair usable if the other was complete |
| AbUpgrade.OtherPhase | app/ota_upgrade/ota_upgrade.c:621-632 | While the other slot is written, the running one stays untouched |
| AbUpgrade.UnmarkedLeavesNone | app/ota_upgrade/ota_upgrade.c:398-400 | With the application written first unmarked, a new GPT copy in the running slot leaves neither pair usable |
| ImageCheck.DoVerifyImage | app/ota_upgrade/chk.c:118-200 | Accepts an image if and only if its header is right, every segment lies in a partition, and no run of consecutive segments for one partition is larger than it |
| ImageCheck.WrongHeaderIsRefused | app/ota_upgrade/chk.c:133-158 | A wrong magic, hash or signature size, or too large a boot ROM code or loader is refused |
| ImageCheck.StrayIsRefused | app/ota_upgrade/chk.c:166-171 | A segment that no partition holds whole is refused |
| ImageCheck.OverfullIsRefused | app/ota_upgrade/chk.c:177-196 | Consecutive segments for one partition that together are larger than it are refused |
| ImageCheck.GetPartInfoOffset | app/ota_upgrade/chk.c:102-116 | The loop returns the first partition that holds the segment, or -1 |
| ImageCheck.RunSettles | app/ota_upgrade/chk.c:165-190 | Checking only longest runs, at the change of partition, settles every shorter run |
| Crc.GetCrc32Update | app/ota_upgrade/crc.c:54-63 | The table-driven loop equals the bit-at-a-time reflected CRC-32 from any starting value on every buffer |
| Crc.GetCrc32 | app/ota_upgrade/crc.c:65-69 | With the standard's initial and final inversion |
| Crc.LookupIsBits32 | app/ota_upgrade/crc.c:10-52 | Each of the 256 table entries is eight shift steps of its index |
| Crc.Crc32Append | app/ota_upgrade/crc.c:54-63 | The checksum composes over concatenation |
| Crc.Bits32Linear | app/ota_upgrade/crc.c:54-63 | Eight steps are linear over exclusive or |
| Crc.FourBytesAreCaught | app/ota_upgrade/crc.c:65-69 | Two messages of equal length that differ only within four bytes in a row never have the same checksum |
| Crc.CheckValue | app/ota_upgrade/crc.c:10-69 | The checksum of the digits 1 to 9 is 0xCBF43926 |
| CrcTable.RowsFollow | app/ota_upgrade/crc.c:10-52 | Every row of the table is its first entry combined with the first row |
| ConfigTransfer.DumpConfigFile | examples/05_config_file/config_file.c:228-365 | Succeeds if and only if the device's answers make up a whole file as it announces it, and has then written exactly that; only consecutive answers are ever written, in at most `total_length` productive rounds |
| ConfigTransfer.EveryAnswerCounts | examples/05_config_file/config_file.c:275-345 | In a whole file every answer carries its own number and offset, at least one and at most 1012 bytes, and the length and checksum of the first answer, which are those of the file |
| ConfigTransfer.HeldFileIsRead | examples/05_config_file/config_file.c:248-345 | From a device that holds a file, answering in chunks of any sizes, exactly that file is read |
| ConfigTransfer.AllRead | examples/05_config_file/config_file.c:347-358 | When the announced length is reached, the chunkwise checksum decides |
| ConfigTransfer.NextOfWhole | examples/05_config_file/config_file.c:275-345 | None of the checks of an answer can refuse the next chunk of a whole file |
| ConfigTransfer.SetConfigFile | examples/05_config_file/config_file.c:367-427 | The requests tile the file: a receiver that insists on consecutive numbers and offsets gets it back whole; every request but the last is full; it stops at the first refusal |
| ConfigTransfer.FillInput | examples/05_config_file/config_file.c:388-405 | One request's offset, length and bytes |
| Crc16.Crc16CcittUpdate | examples/05_config_file/config_file.c:93-107 | The two nested loops equal the bitwise definition |
| Crc16.UpdateAppend | examples/05_config_file/config_file.c:319-319 | The checksum of the chunks one after another is that of the whole file |
| Crc16.TwoBytesAreCaught | examples/05_config_file/config_file.c:93-107 | Two messages that differ only within two bytes in a row never have the same checksum |
| Crc16.CheckValue | examples/05_config_file/config_file.c:93-107 | The checksum of the digits 1 to 9, from zero, is 0x31C3 |

## Left out

- What the device does with the bytes it accepted: the device is not part of the repository.
- The transmit path as a whole, the client's blocking write and the scheduler are step functions on values, not loops on records, because other threads act between any two of their steps; the socket's records themselves are classes in SockNode.
- SocketWrite.WriteReturnsWhatWasDelivered: is about one writer in stream mode without a timeout; an acceptance of zero bytes is a wait that goes on.
- Recovery.NeverBeyondRepair: says that a good continuation exists, not that device and scheduler choose it; fairness is not modelled.
- RpcSocket.ReadPieces: covers connections that never overflow the save buffer; a call that overflows it is covered by `Read`, except for a single piece longer than the whole buffer.
- PoliteDevice.StrandedIff: is about runs without loss; with loss, a pack may be missing that no refusal names.
- Datagram.DatagramsInOrder: assumes that everything that arrives fits the ring; `PushReceived` states what is lost otherwise.
- UsbPack.UnpackUsbPack: does not model the wrap of the 32-bit sum of offset and length, which for announced lengths near 2^32 makes the source accept frames that this contract rules out.
- UsbPack.CheckFrame: the same.
- Datagram.UnpackDatagramPack: the same, in a source without any guard on the announced length.
- RingBuffers.RingBuffer.InWithLimit: the signed subtraction is taken as exact; for limits just above 2^31 it overflows in the source, which C leaves undefined.
- UartDev.ReceiveLine: assumes a ring with room for a largest packet. The staging buffer into which the pop loop copies what it takes or drops has no capacity here; it holds 4134 bytes, less than a header and a largest payload, and less than a long stretch of noise.
- TapSpec.EmptyFrameSilences: ends at the write past the data buffer, which is undefined in the source and a stopped state here; were the 16-bit index to wrap, the hunt would start again after 65536 bytes.
- AbUpgrade.UpgradeImage: takes as given that partitions overlap neither each other nor the GPT copies, that both applications' partitions are not empty, that every marked partition has a segment, and that every segment's data lies in the file; the check of the image does not look at these. Which slot runs is a parameter; the source takes the master when the query fails (`app/ota_upgrade/ota_upgrade.c:613-617`), so that the pair called running need not be the one that runs.
- Signature and hash of the image: the source does not compare them either.
- An exchange of the firmware upgrade and the addition to the shared byte counter are single steps; the source adds without a lock.
- Scheduler.NoLostWakeUp: excepts nodes whose last change was the receiver's silent one, for which the exact condition is `SchedulerRaces.WaitsInVainIff`; teardown through the `running` flag is not modelled.
- 32-bit wrap of the length sum in `ringbuffer_get_data`, 64-bit wrap of stream positions and image offsets: lengths and positions are mathematical integers, except for the casts to 32 bits in the window and the 8-, 16- and 32-bit fields on the wire.
- Payload limits below eight bytes, where the source's subtraction wraps.
- Socket ioctl requests and replies, key exchange, and a device that restarts its positions: none of them is part of the transmit window.
- TCP, libusb, termios, thread creation, files, logging, option parsing, device search and hotplug: input and output only.
- `uart_data_get`, `plist_usb_rd_cb`, `check_recv_pack` and the keep-alive request's contents: they pass on what the modelled parts deliver.
- `com/ioctl_tab.c`, `com/bb_api.h`, `com/prj_rpc.h`: tables and structures.
- Session teardown: lifetime of objects, no data property.
