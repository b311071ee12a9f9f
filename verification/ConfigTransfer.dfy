/** Reading and writing a device's configuration file in chunks (dump_config_file and set_config_file of
    examples/05_config_file/config_file.c). The device is an arbitrary function of the request: the
    sequence number makes every request of one transfer different, so this leaves out no behaviour. */
module ConfigTransfer {
  import opened Bytes
  import opened Crc16

  const DATA_MAX: nat := 1012

  type u16 = x: int | 0 <= x < 0x1_0000
  type Buffer = s: seq<bv8> | |s| == DATA_MAX witness seq(DATA_MAX, _ => 0)

  datatype GetRequest = GetRequest(seqNo: u16, mode: int, offset: u16, length: u16)

  datatype Reply =
    | Refused(ret: int)
    | Answer(seqNo: u16, totalLength: u16, totalCrc16: bv16, offset: u16, length: u16, data: Buffer)

  // Reading.

  /** The i-th request of a transfer that has got that many bytes so far. */
  function Asked(mode: int, i: u16, offset: u16): GetRequest {
    GetRequest(i, mode, offset, DATA_MAX)
  }

  /** The device's answer to the i-th request carries the piece and the same totals as its first. */
  predicate Gives(device: GetRequest -> Reply, mode: int, i: nat, offset: nat, piece: seq<bv8>) {
    && i < 0x1_0000 && offset < 0x1_0000
    && var first, r := device(Asked(mode, 0, 0)), device(Asked(mode, i, offset));
    && first.Answer? && r.Answer?
    && r.seqNo == i && r.offset == offset
    && r.totalLength == first.totalLength && r.totalCrc16 == first.totalCrc16
    && 0 < |piece| == r.length <= DATA_MAX && piece == r.data[..r.length]
  }

  /** The pieces are answers to consecutive requests, each at the offset where the one before ended. */
  predicate Consecutive(device: GetRequest -> Reply, mode: int, pieces: seq<seq<bv8>>) {
    forall i :: 0 <= i < |pieces| ==> Gives(device, mode, i, |Flatten(pieces[..i])|, pieces[i])
  }

  /** The pieces are a whole file, as the device announces it. */
  predicate WholeFile(device: GetRequest -> Reply, mode: int, pieces: seq<seq<bv8>>) {
    var first := device(Asked(mode, 0, 0));
    && first.Answer? && first.seqNo == 0 && first.offset == 0
    && Consecutive(device, mode, pieces)
    && (pieces == [] ==> first.length == 0)
    && |Flatten(pieces)| == first.totalLength
    && Update(0, Flatten(pieces)) == first.totalCrc16
  }

  /** One answer of a whole file: with its own number and place, the totals of the first answer and at least one
      byte; if any answer on the way is otherwise, there is no whole file through it. */
  lemma EveryAnswerCounts(device: GetRequest -> Reply, mode: int, pieces: seq<seq<bv8>>, i: nat)
    requires WholeFile(device, mode, pieces) && i < |pieces|
    ensures i < 0x1_0000 && |Flatten(pieces[..i])| < 0x1_0000
    ensures var first, r := device(GetRequest(0, mode, 0, 1012)), device(GetRequest(i, mode, |Flatten(pieces[..i])|, 1012));
      && first.Answer? && r.Answer?
      && r.seqNo == i && r.offset == |Flatten(pieces[..i])| && 0 < r.length <= 1012
      && r.totalLength == first.totalLength == |Flatten(pieces)|
      && r.totalCrc16 == first.totalCrc16 == Update(0, Flatten(pieces))
      && pieces[i] == r.data[..r.length]
  {
    hide Update, Flatten;
    assert Gives(device, mode, i, |Flatten(pieces[..i])|, pieces[i]);
  }

  lemma {:induction false} FlattenLen(pieces: seq<seq<bv8>>, k: nat)
    requires k <= |pieces| && forall i :: 0 <= i < |pieces| ==> |pieces[i]| > 0
    ensures k <= |Flatten(pieces[..k])| <= |Flatten(pieces)|
    ensures k < |pieces| ==> |Flatten(pieces[..k])| + |pieces[k]| <= |Flatten(pieces)|
    decreases |pieces|
  {
    if k > 0 {
      FlattenLen(pieces[1..], k - 1);
      assert pieces[..k][1..] == pieces[1..][..k - 1];
    } else if pieces != [] {
      FlattenLen(pieces[1..], 0);
    }
  }

  /** The answer to the i-th request, at that offset, has the right number, the right place and the
      totals of the first answer, and does not go beyond the end. */
  predicate Fits(device: GetRequest -> Reply, mode: int, i: nat, offset: nat) {
    && i < 0x1_0000 && offset < 0x1_0000
    && var first, r := device(Asked(mode, 0, 0)), device(Asked(mode, i, offset));
    && first.Answer? && r.Answer?
    && r.seqNo == i && r.offset == offset && r.length <= DATA_MAX
    && r.totalLength == first.totalLength && r.totalCrc16 == first.totalCrc16
    && offset + r.length <= first.totalLength
  }

  /** It also makes progress, unless the end is reached. */
  predicate Passes(device: GetRequest -> Reply, mode: int, i: nat, offset: nat) {
    && Fits(device, mode, i, offset)
    && (device(Asked(mode, i, offset)).length > 0 || offset == device(Asked(mode, 0, 0)).totalLength)
  }

  function Piece(device: GetRequest -> Reply, mode: int, i: nat, offset: nat): seq<bv8>
    requires Fits(device, mode, i, offset)
  {
    var r := device(Asked(mode, i, offset));
    r.data[..r.length]
  }

  /** What is read while the transfer goes on: consecutive pieces, and the end not yet reached. */
  predicate Reading(device: GetRequest -> Reply, mode: int, got: seq<seq<bv8>>) {
    && Consecutive(device, mode, got)
    && (got != [] ==>
          var first := device(Asked(mode, 0, 0));
          first.Answer? && first.seqNo == 0 && first.offset == 0 && |Flatten(got)| < first.totalLength)
  }

  lemma PiecesNotEmpty(device: GetRequest -> Reply, mode: int, got: seq<seq<bv8>>)
    requires Consecutive(device, mode, got)
    ensures forall i :: 0 <= i < |got| ==> |got[i]| > 0
    ensures |got| <= |Flatten(got)|
  {
    forall i | 0 <= i < |got|
      ensures |got[i]| > 0
    {
      assert Gives(device, mode, i, |Flatten(got[..i])|, got[i]);
    }
    FlattenLen(got, |got|);
    assert got[..|got|] == got;
  }

  lemma GivenPasses(device: GetRequest -> Reply, mode: int, i: nat, offset: nat, piece: seq<bv8>)
    requires Gives(device, mode, i, offset, piece)
    requires offset + |piece| <= device(Asked(mode, 0, 0)).totalLength
    ensures Passes(device, mode, i, offset) && Piece(device, mode, i, offset) == piece
  {
  }

  /** If what has been read is the start of a whole file, the next answer passes and carries the whole
      file's next piece. */
  lemma NextOfWhole(device: GetRequest -> Reply, mode: int, got: seq<seq<bv8>>, whole: seq<seq<bv8>>)
    requires WholeFile(device, mode, whole) && Reading(device, mode, got) && got <= whole
    ensures Passes(device, mode, |got|, |Flatten(got)|)
    ensures var piece := Piece(device, mode, |got|, |Flatten(got)|);
      if got == whole then piece == [] else piece != [] && whole[|got|] == piece
  {
    PiecesNotEmpty(device, mode, whole);
    assert whole[..|got|] == got;
    if got == whole {
      assert got == [];
    } else {
      FlattenLen(whole, |got|);
      assert Gives(device, mode, |got|, |Flatten(whole[..|got|])|, whole[|got|]);
      hide Gives, Passes, Consecutive;
      GivenPasses(device, mode, |got|, |Flatten(got)|, whole[|got|]);
    }
  }

  lemma PieceIs(device: GetRequest -> Reply, mode: int, i: nat, offset: nat)
    requires Fits(device, mode, i, offset)
    ensures var r := device(Asked(mode, i, offset)); Piece(device, mode, i, offset) == r.data[..r.length]
  {
  }

  lemma PieceGiven(device: GetRequest -> Reply, mode: int, i: nat, offset: nat)
    requires Fits(device, mode, i, offset) && Piece(device, mode, i, offset) != []
    ensures Gives(device, mode, i, offset, Piece(device, mode, i, offset))
  {
  }

  lemma PieceAdded(device: GetRequest -> Reply, mode: int, got: seq<seq<bv8>>, piece: seq<bv8>)
    requires Consecutive(device, mode, got) && Gives(device, mode, |got|, |Flatten(got)|, piece)
    ensures var more := got + [piece];
      && Consecutive(device, mode, more)
      && Flatten(more) == Flatten(got) + piece
      && Update(0, Flatten(more)) == Update(Update(0, Flatten(got)), piece)
  {
    hide Gives, Update;
    var more := got + [piece];
    FlattenAppend(got, piece);
    UpdateAppend(0, Flatten(got), piece);
    forall i | 0 <= i < |more|
      ensures Gives(device, mode, i, |Flatten(more[..i])|, more[i])
    {
      if i < |got| {
        assert more[..i] == got[..i] && more[i] == got[i];
      } else {
        assert more[..i] == got;
      }
    }
  }

  /** One request and the checks of its answer, up to the point where its bytes are written. */
  method Fetch(device: GetRequest -> Reply, mode: int, i: u16, offset: u16, total: u16, totalCrc: bv16)
    returns (ok: bool, r: Reply)
    requires i == 0 ==> offset == 0
    requires i > 0 ==>
      var first := device(Asked(mode, 0, 0));
      first.Answer? && first.totalLength == total && first.totalCrc16 == totalCrc
    ensures r == device(Asked(mode, i, offset))
    ensures ok <==> Fits(device, mode, i, offset)
  {
    r := device(GetRequest(i, mode, offset, DATA_MAX));
    if r.Refused? {
      return false, r;
    }
    if r.seqNo != i || r.offset != offset || r.length > DATA_MAX {
      return false, r;
    }
    if i > 0 && (r.totalLength != total || r.totalCrc16 != totalCrc) {
      return false, r;
    }
    return offset + r.length <= r.totalLength, r;
  }

  ghost predicate StartsEveryWhole(device: GetRequest -> Reply, mode: int, got: seq<seq<bv8>>) {
    forall whole :: WholeFile(device, mode, whole) ==> got <= whole
  }

  lemma NoWhole(device: GetRequest -> Reply, mode: int, got: seq<seq<bv8>>)
    requires StartsEveryWhole(device, mode, got) && Reading(device, mode, got)
    requires !Passes(device, mode, |got|, |Flatten(got)|)
    ensures forall whole :: !WholeFile(device, mode, whole)
  {
    hide WholeFile, Reading, Passes;
    forall whole | WholeFile(device, mode, whole)
      ensures false
    {
      NextOfWhole(device, mode, got, whole);
    }
  }

  lemma StillStarts(device: GetRequest -> Reply, mode: int, got: seq<seq<bv8>>, piece: seq<bv8>)
    requires StartsEveryWhole(device, mode, got) && Reading(device, mode, got)
    requires Fits(device, mode, |got|, |Flatten(got)|) && piece == Piece(device, mode, |got|, |Flatten(got)|) != []
    ensures StartsEveryWhole(device, mode, got + [piece])
  {
    hide WholeFile, Reading, Passes, Fits, Piece;
    forall whole | WholeFile(device, mode, whole)
      ensures got + [piece] <= whole
    {
      NextOfWhole(device, mode, got, whole);
    }
  }

  /** All of the announced bytes have been read: this is the whole file if the checksum is right, and
      otherwise there is none. */
  lemma AllRead(device: GetRequest -> Reply, mode: int, got: seq<seq<bv8>>)
    requires StartsEveryWhole(device, mode, got) && Consecutive(device, mode, got)
    requires Fits(device, mode, 0, 0) && |Flatten(got)| == device(Asked(mode, 0, 0)).totalLength
    ensures if Update(0, Flatten(got)) == device(Asked(mode, 0, 0)).totalCrc16
      then WholeFile(device, mode, got) else forall whole :: !WholeFile(device, mode, whole)
  {
    hide Update;
    forall whole | WholeFile(device, mode, whole)
      ensures whole == got
    {
      PiecesNotEmpty(device, mode, whole);
      FlattenLen(whole, |got|);
      assert whole[..|got|] == got;
    }
  }

  lemma AtMostSoMany(device: GetRequest -> Reply, mode: int, got: seq<seq<bv8>>)
    requires Consecutive(device, mode, got) && |Flatten(got)| < 0x1_0000
    ensures |got| < 0x1_0000 && |got| <= |Flatten(got)|
  {
    PiecesNotEmpty(device, mode, got);
  }

  lemma NothingRead(device: GetRequest -> Reply, mode: int)
    ensures StartsEveryWhole(device, mode, []) && Reading(device, mode, [])
  {
  }

  /** dump_config_file: succeeds just when the device's answers make up a whole file as it announces it,
      and then this is what has been written; whatever happens, only consecutive answers are written. */
  method DumpConfigFile(device: GetRequest -> Reply, mode: int) returns (ret: int, pieces: seq<seq<bv8>>)
    ensures ret == 0 <==> exists whole :: WholeFile(device, mode, whole)
    ensures ret == 0 ==> WholeFile(device, mode, pieces)
    ensures Consecutive(device, mode, pieces)
    ensures device(Asked(mode, 0, 0)).Answer? ==> |pieces| <= device(Asked(mode, 0, 0)).totalLength
    ensures device(Asked(mode, 0, 0)).Refused? ==> pieces == []
  {
    ghost var first := device(Asked(mode, 0, 0));
    NothingRead(device, mode);
    assert Flatten<bv8>([]) == [];
    hide WholeFile, Consecutive, StartsEveryWhole, Piece, Update, Flatten;
    var seqNo: u16, offset: u16, written: nat := 0, 0, 0;
    var total: u16, totalCrc: bv16, crc: bv16 := 0, 0, 0;
    pieces := [];
    while true
      invariant seqNo == |pieces| && offset == written == |Flatten(pieces)| && crc == Update(0, Flatten(pieces))
      invariant Reading(device, mode, pieces) && StartsEveryWhole(device, mode, pieces)
      invariant seqNo == 0 ==> written == 0
      invariant seqNo > 0 ==> Fits(device, mode, 0, 0) && total == first.totalLength && totalCrc == first.totalCrc16
      decreases 0x1_0000 - written
    {
      AtMostSoMany(device, mode, pieces);
      var ok, r := Fetch(device, mode, seqNo, offset, total, totalCrc);
      if !ok {
        NoWhole(device, mode, pieces);
        return -1, pieces;
      }
      if seqNo == 0 {
        total, totalCrc := r.totalLength, r.totalCrc16;
      }
      if r.length > 0 {
        var piece := r.data[..r.length];
        assert piece == Piece(device, mode, seqNo, offset) by { PieceIs(device, mode, seqNo, offset); }
        PieceGiven(device, mode, seqNo, offset);
        PieceAdded(device, mode, pieces, piece);
        StillStarts(device, mode, pieces, piece);
        pieces := pieces + [piece];
        crc := Crc16CcittUpdate(crc, piece);
        written := written + r.length;
      }
      if written >= total {
        break;
      }
      if r.length == 0 {
        NoWhole(device, mode, pieces);
        return -1, pieces;
      }
      // The guard against an offset beyond 65535 can never fire: the end would have been reached.
      AtMostSoMany(device, mode, pieces);
      assert offset <= 0xFFFF - r.length;
      offset := offset + r.length;
      seqNo := seqNo + 1;
    }
    AllRead(device, mode, pieces);
    ret := if written == total && crc == totalCrc then 0 else -1;
  }

  /** The device holds that file: it answers with the file's own bytes at the place asked for, as many
      as it likes but at least one before the end, and with the file's length and checksum. */
  ghost predicate HoldsFile(device: GetRequest -> Reply, mode: int, file: seq<bv8>) {
    forall i: u16, offset: u16 :: offset <= |file| ==> AnswersFrom(device(Asked(mode, i, offset)), i, offset, file)
  }

  predicate AnswersFrom(r: Reply, i: u16, offset: u16, file: seq<bv8>)
    requires offset <= |file|
  {
    && r.Answer? && r.seqNo == i && r.offset == offset
    && r.totalLength == |file| && r.totalCrc16 == Update(0, file)
    && r.length <= DATA_MAX && offset + r.length <= |file| && (offset < |file| ==> r.length > 0)
    && r.data[..r.length] == file[offset..offset + r.length]
  }

  lemma {:induction false} PrefixOfFile(device: GetRequest -> Reply, mode: int, file: seq<bv8>, got: seq<seq<bv8>>)
    requires HoldsFile(device, mode, file) && Consecutive(device, mode, got) && |Flatten(got)| <= |file|
    ensures Flatten(got) == file[..|Flatten(got)|]
    decreases |got|
  {
    if got != [] {
      var n := |got| - 1;
      var front, piece := got[..n], got[n];
      assert got == front + [piece];
      assert forall i :: 0 <= i < n ==> got[..i] == front[..i];
      FlattenAppend(front, piece);
      assert Gives(device, mode, n, |Flatten(got[..n])|, piece);
      PrefixOfFile(device, mode, file, front);
      hide Update, Flatten, Consecutive;
      assert AnswersFrom(device(Asked(mode, n, |Flatten(front)|)), n, |Flatten(front)|, file);
    }
  }

  lemma {:induction false} ReadOn(device: GetRequest -> Reply, mode: int, file: seq<bv8>, got: seq<seq<bv8>>)
    requires HoldsFile(device, mode, file) && Consecutive(device, mode, got) && |file| < 0x1_0000
    requires |Flatten(got)| <= |file|
    ensures exists whole :: WholeFile(device, mode, whole)
    decreases |file| - |Flatten(got)|
  {
    var off := |Flatten(got)|;
    PiecesNotEmpty(device, mode, got);
    PrefixOfFile(device, mode, file, got);
    assert AnswersFrom(device(Asked(mode, 0, 0)), 0, 0, file);
    if off == |file| {
      assert Flatten(got) == file;
      assert WholeFile(device, mode, got);
    } else {
      var r := device(Asked(mode, |got|, off));
      assert AnswersFrom(r, |got|, off, file);
      PieceAdded(device, mode, got, r.data[..r.length]);
      ReadOn(device, mode, file, got + [r.data[..r.length]]);
    }
  }

  /** Whatever the sizes of its answers, the reader gets out of a device exactly the file it holds. */
  lemma HeldFileIsRead(device: GetRequest -> Reply, mode: int, file: seq<bv8>)
    requires HoldsFile(device, mode, file) && |file| < 0x1_0000
    ensures exists whole :: WholeFile(device, mode, whole)
    ensures forall whole :: WholeFile(device, mode, whole) ==> Flatten(whole) == file
  {
    ReadOn(device, mode, file, []);
    assert AnswersFrom(device(Asked(mode, 0, 0)), 0, 0, file);
    forall whole | WholeFile(device, mode, whole)
      ensures Flatten(whole) == file
    {
      PrefixOfFile(device, mode, file, whole);
    }
  }

  // Writing.

  datatype SetRequest = SetRequest(
    seqNo: nat, totalLength: u16, totalCrc16: bv16, offset: u16, length: u16, data: Buffer)

  function Payload(r: SetRequest): seq<bv8> {
    if r.length <= DATA_MAX then r.data[..r.length] else r.data
  }

  /** What a receiver makes of the requests it gets: each must carry the next number and the next
      offset and repeat the totals. */
  function Received(sent: seq<SetRequest>): Option<seq<bv8>>
    decreases |sent|
  {
    if sent == [] then Some([])
    else
      var n := |sent| - 1;
      var r, before := sent[n], Received(sent[..n]);
      if before.Some? && r.seqNo == n && r.offset == |before.value|
         && r.totalLength == sent[0].totalLength && r.totalCrc16 == sent[0].totalCrc16
      then Some(before.value + Payload(r)) else None
  }

  lemma ReceivedNext(sent: seq<SetRequest>, r: SetRequest, before: seq<bv8>)
    requires Received(sent) == Some(before) && r.seqNo == |sent| && r.offset == |before|
    requires sent != [] ==> r.totalLength == sent[0].totalLength && r.totalCrc16 == sent[0].totalCrc16
    ensures Received(sent + [r]) == Some(before + Payload(r))
  {
    assert (sent + [r])[..|sent|] == sent;
  }

  /** Every request announces the file's length and checksum. */
  predicate Announces(sent: seq<SetRequest>, file: seq<bv8>) {
    forall r :: r in sent ==> r.totalLength == |file| && r.totalCrc16 == Update(0, file)
  }

  /** Every request but the last is full and has been accepted. */
  predicate FullAndAccepted(device: SetRequest -> int, sent: seq<SetRequest>) {
    forall i :: 0 <= i < |sent| - 1 ==> sent[i].length == DATA_MAX && device(sent[i]) == 0
  }

  /** The request for the file's bytes from offset on. */
  method FillInput(seqNo: nat, file: seq<bv8>, crc: bv16, offset: nat) returns (input: SetRequest)
    requires offset < |file| <= 0xFFFF
    ensures input.seqNo == seqNo && input.offset == offset
    ensures input.totalLength == |file| && input.totalCrc16 == crc
    ensures 0 < input.length <= DATA_MAX && offset + input.length <= |file|
    ensures input.length == DATA_MAX || offset + input.length == |file|
    ensures file[..offset + input.length] == file[..offset] + Payload(input)
  {
    var chunk := |file| - offset;
    if chunk > DATA_MAX {
      chunk := DATA_MAX;
    }
    var data: Buffer := file[offset..offset + chunk] + seq(DATA_MAX - chunk, _ => 0);
    input := SetRequest(seqNo, |file|, crc, offset, chunk, data);
    assert data[..chunk] == file[offset..offset + chunk];
  }

  /** The requests sent cover the file's first offset bytes, and only the last may yet be refused. */
  predicate Covers(device: SetRequest -> int, file: seq<bv8>, sent: seq<SetRequest>, offset: nat) {
    && sent != [] && 0 < offset <= |file|
    && Received(sent) == Some(file[..offset])
    && Announces(sent, file) && FullAndAccepted(device, sent)
    && var last := sent[|sent| - 1];
    0 < last.length <= DATA_MAX && (last.length == DATA_MAX || offset == |file|)
  }

  predicate Sending(device: SetRequest -> int, file: seq<bv8>, sent: seq<SetRequest>, offset: nat) {
    && offset <= |file|
    && Received(sent) == Some(file[..offset])
    && if sent == [] then offset == 0 else Covers(device, file, sent, offset) && device(sent[|sent| - 1]) == 0
  }

  lemma SentMore(device: SetRequest -> int, file: seq<bv8>, sent: seq<SetRequest>, offset: nat, r: SetRequest)
    requires Sending(device, file, sent, offset) && offset < |file|
    requires r.seqNo == |sent| && r.offset == offset
    requires r.totalLength == |file| && r.totalCrc16 == Update(0, file)
    requires 0 < r.length <= DATA_MAX && offset + r.length <= |file|
    requires r.length == DATA_MAX || offset + r.length == |file|
    requires file[..offset + r.length] == file[..offset] + Payload(r)
    ensures Covers(device, file, sent + [r], offset + r.length)
  {
    hide Update, Received, Payload;
    ReceivedNext(sent, r, file[..offset]);
  }

  /** set_config_file: a file of 1 to 65535 bytes is sent in requests that a receiver puts together to
      the file again, announced with its length and checksum; every request but the last is full. It
      stops at the first request the device refuses. */
  method SetConfigFile(device: SetRequest -> int, file: seq<bv8>) returns (ret: int, sent: seq<SetRequest>)
    ensures |file| == 0 || |file| > 0xFFFF ==> ret == -1 && sent == []
    ensures 0 < |file| <= 0xFFFF ==> sent != [] && 0 < sent[|sent| - 1].length <= DATA_MAX
    ensures Announces(sent, file) && FullAndAccepted(device, sent)
    ensures Received(sent).Some? && Received(sent).value <= file
    ensures sent != [] ==> ret == device(sent[|sent| - 1])
    ensures ret == 0 ==> Received(sent) == Some(file)
  {
    sent := [];
    assert Announces([], file) && FullAndAccepted(device, []) && Received([]) == Some([]);
    if |file| == 0 || |file| > 0xFFFF {
      return -1, sent;
    }
    hide Received, Update, Payload, Announces, FullAndAccepted;
    var crc := Crc16CcittUpdate(0, file);
    var offset, seqNo := 0, 0;
    ret := 0;
    while offset < |file|
      invariant ret == 0 && seqNo == |sent| && Sending(device, file, sent, offset)
    {
      var input := FillInput(seqNo, file, crc, offset);
      SentMore(device, file, sent, offset, input);
      sent := sent + [input];
      ret := device(input);
      if ret != 0 {
        return;
      }
      offset := offset + input.length;
      seqNo := seqNo + 1;
    }
    assert file[..offset] == file;
  }
}
