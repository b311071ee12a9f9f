/** The receiver of the TAP tunnel as a machine over single bytes, and what it makes of a stream:
    Network_ComFindHeader and BB_ComPacketDataAnalyze of app/tuntap/tuntap.cpp. */
module TapSpec {
  import opened Bytes
  import opened UartSpec
  import opened UartStream

  const BBCOM_RX_BUF_SIZE := 4000
  const PACKET_HEADER_SIZE := 15

  /** Looking for the sync with its first matched bytes seen; collecting a header; collecting data.
      Overrun is where the source would write past its data buffer: nothing is said from there on. */
  datatype Mode =
    | Hunting(matched: nat)
    | Heading(header: seq<byte>)
    | Receiving(len: nat, got: seq<byte>)
    | Overrun

  datatype Tap = Tap(mode: Mode, out: seq<seq<byte>>)

  const FRESH_TAP := Tap(Hunting(0), [])

  predicate TapOk(t: Tap) {
    match t.mode
    case Hunting(m) => m <= 4
    case Heading(h) => 5 <= |h| < PACKET_HEADER_SIZE
    case Receiving(len, got) =>
      len <= BBCOM_RX_BUF_SIZE && |got| <= BBCOM_RX_BUF_SIZE + 1 && (0 < len ==> |got| < len)
    case Overrun => true
  }

  function Hunt(m: nat, b: byte): Mode
    requires m <= 4
  {
    if b != SYNC[m] then Hunting(if b == SYNC[0] then 1 else 0)
    else if m == 4 then Heading(SYNC)
    else Hunting(m + 1)
  }

  function Step(t: Tap, b: byte): (t': Tap)
    requires TapOk(t)
    ensures TapOk(t')
  {
    match t.mode
    case Hunting(m) => t.(mode := Hunt(m, b))
    case Heading(h) =>
      var header := h + [b];
      if |header| < PACKET_HEADER_SIZE then t.(mode := Heading(header))
      else if Le16(header, 5) <= BBCOM_RX_BUF_SIZE then t.(mode := Receiving(Le16(header, 5), []))
      else t.(mode := Hunting(0))
    case Receiving(len, got) =>
      if |got| > BBCOM_RX_BUF_SIZE then t.(mode := Overrun)
      else if |got| + 1 == len then Tap(Hunting(0), t.out + [got + [b]])
      else t.(mode := Receiving(len, got + [b]))
    case Overrun => t
  }

  function Steps(t: Tap, s: seq<byte>): (t': Tap)
    requires TapOk(t)
    ensures TapOk(t')
    decreases |s|
  {
    if s == [] then t else Steps(Step(t, s[0]), s[1..])
  }

  /** The machine has no memory of how its bytes were cut. */
  lemma {:induction false} StepsConcat(t: Tap, a: seq<byte>, b: seq<byte>)
    requires TapOk(t)
    ensures Steps(t, a + b) == Steps(Steps(t, a), b)
    decreases |a|
  {
    if a == [] {
      assert a + b == b;
    } else {
      assert (a + b)[1..] == a[1..] + b;
      StepsConcat(Step(t, a[0]), a[1..], b);
    }
  }

  // Finding the sync.

  /** The n bytes before place k are the first n of the sync. */
  predicate Seen(s: seq<byte>, k: nat, n: nat) {
    && n <= k <= |s| && n <= 4
    && (0 < n ==> s[k - n] == 0xFF)
    && (1 < n ==> s[k - n + 1] == 0xA5)
    && (2 < n ==> s[k - n + 2] == 0xAA)
    && (3 < n ==> s[k - n + 3] == 0x5A)
  }

  /** m is the longest such match, and no whole sync ends at or before k. */
  ghost predicate Longest(s: seq<byte>, k: nat, m: nat) {
    && Seen(s, k, m)
    && (forall n: nat :: m < n ==> !Seen(s, k, n))
    && (forall i: nat :: i + 5 <= k ==> !SyncAt(s, i))
  }

  /** A mismatch goes back to one matched byte or none. No match is lost: the sync's first byte does
      not occur again before its last. */
  lemma HuntKeepsLongest(s: seq<byte>, k: nat, m: nat)
    requires k < |s| && Longest(s, k, m)
    ensures match Hunt(m, s[k])
      case Hunting(m') => Longest(s, k + 1, m')
      case _ => 4 <= k && SyncAt(s, k - 4)
  {
    if Hunt(m, s[k]).Hunting? {
      var m', next := Hunt(m, s[k]).matched, k + 1;
      forall n: nat | m' < n
        ensures !Seen(s, next, n)
      {
        if 1 < n && Seen(s, next, n) {
          assert Seen(s, k, n - 1);
        }
      }
      if 4 <= k && SyncAt(s, k - 4) {
        assert Seen(s, k, 4);
      }
    }
  }

  predicate StillHunting(t: Tap, out: seq<seq<byte>>) {
    t.mode.Hunting? && t.out == out
  }

  /** The bytes from k up to j leave the machine hunting exactly while no sync is complete in them. */
  lemma {:induction false} HuntFindsFirst(s: seq<byte>, k: nat, m: nat, out: seq<seq<byte>>, j: nat)
    requires Longest(s, k, m) && k <= j <= |s|
    ensures match FindSync(s, 0)
      case None => StillHunting(Steps(Tap(Hunting(m), out), s[k..j]), out)
      case Some(i) =>
        && k < i + 5
        && (j < i + 5 ==> StillHunting(Steps(Tap(Hunting(m), out), s[k..j]), out))
        && (j == i + 5 ==> Steps(Tap(Hunting(m), out), s[k..j]) == Tap(Heading(SYNC), out))
    decreases j - k
  {
    hide FindSync;
    if k < j {
      HuntKeepsLongest(s, k, m);
      assert s[k..j][1..] == s[k + 1..j];
      var next := Hunt(m, s[k]);
      if next.Hunting? {
        HuntFindsFirst(s, k + 1, next.matched, out, j);
      } else {
        FirstEndsAt(s, k);
        assert k + 1 == j ==> s[k + 1..j] == [];
      }
    } else if FindSync(s, 0).Some? {
      assert SyncAt(s, FindSync(s, 0).value);
    }
  }

  lemma FirstEndsAt(s: seq<byte>, k: nat)
    requires 4 <= k < |s| && SyncAt(s, k - 4) && forall i: nat :: i + 5 <= k ==> !SyncAt(s, i)
    ensures FindSync(s, 0) == Some(k - 4)
  {
  }

  // Streams.

  /** A frame as tun_2_bb_thread sends it: the UART frame's layout with every id zero. */
  function TapFrame(payload: seq<byte>): (s: seq<byte>)
    requires |payload| < 0x1_0000
    ensures |s| == PACKET_HEADER_SIZE + |payload|
  {
    TapHeader(payload) + payload
  }

  function TapHeader(payload: seq<byte>): (s: seq<byte>)
    requires |payload| < 0x1_0000
    ensures |s| == PACKET_HEADER_SIZE && Le16(s, 5) == |payload| && s[..5] == SYNC
  {
    SYNC + [|payload| % 256, |payload| / 256, 0, 0, 0, 0, 0, 0, Checksum(payload) % 256, Checksum(payload) / 256]
  }

  lemma {:induction false} HeadingTakes(h: seq<byte>, s: seq<byte>, out: seq<seq<byte>>)
    requires 5 <= |h| < PACKET_HEADER_SIZE && |h| + |s| == PACKET_HEADER_SIZE
    ensures Steps(Tap(Heading(h), out), s) ==
      Tap(if Le16(h + s, 5) <= BBCOM_RX_BUF_SIZE then Receiving(Le16(h + s, 5), []) else Hunting(0), out)
    decreases |s|
  {
    assert h + s == (h + [s[0]]) + s[1..];
    if |s| == 1 {
      assert s[1..] == [] && h + s == h + [s[0]];
    } else {
      HeadingTakes(h + [s[0]], s[1..], out);
    }
  }

  lemma {:induction false} ReceivingTakes(got: seq<byte>, s: seq<byte>, out: seq<seq<byte>>)
    requires s != [] && |got| + |s| <= BBCOM_RX_BUF_SIZE
    ensures Steps(Tap(Receiving(|got| + |s|, got), out), s) == Tap(Hunting(0), out + [got + s])
    decreases |s|
  {
    assert got + s == (got + [s[0]]) + s[1..];
    if |s| == 1 {
      assert s[1..] == [] && got + s == got + [s[0]];
    } else {
      ReceivingTakes(got + [s[0]], s[1..], out);
    }
  }

  /** Noise and a frame, from a fresh hunt: exactly the payload is written and the hunt starts over. */
  lemma SegmentTakes(noise: seq<byte>, payload: seq<byte>, out: seq<seq<byte>>)
    requires 0 < |payload| <= BBCOM_RX_BUF_SIZE && FindSync(noise + SYNC, 0) == Some(|noise|)
    ensures Steps(Tap(Hunting(0), out), noise + TapFrame(payload)) == Tap(Hunting(0), out + [payload])
  {
    HeaderTakes(noise, payload, out);
    PayloadTakes(payload, out);
    Joined(noise, payload);
    hide Steps, Step, TapHeader, FindSync, TapFrame, SYNC;
    StepsConcat(Tap(Hunting(0), out), noise + TapHeader(payload), payload);
  }

  lemma PayloadTakes(payload: seq<byte>, out: seq<seq<byte>>)
    requires 0 < |payload| <= BBCOM_RX_BUF_SIZE
    ensures TapOk(Tap(Receiving(|payload|, []), out))
    ensures Steps(Tap(Receiving(|payload|, []), out), payload) == Tap(Hunting(0), out + [payload])
  {
    hide Steps, Step;
    ReceivingTakes([], payload, out);
    assert [] + payload == payload;
  }

  lemma Joined(noise: seq<byte>, payload: seq<byte>)
    requires |payload| < 0x1_0000
    ensures noise + TapFrame(payload) == (noise + TapHeader(payload)) + payload
  {
    hide TapHeader;
  }

  lemma SyncTakes(noise: seq<byte>, out: seq<seq<byte>>)
    requires FindSync(noise + SYNC, 0) == Some(|noise|)
    ensures Steps(Tap(Hunting(0), out), noise + SYNC) == Tap(Heading(SYNC), out)
  {
    hide Steps, FindSync;
    var s := noise + SYNC;
    assert Longest(s, 0, 0);
    HuntFindsFirst(s, 0, 0, out, |s|);
    assert s[0..|s|] == s;
  }

  lemma HeaderTakes(noise: seq<byte>, payload: seq<byte>, out: seq<seq<byte>>)
    requires |payload| < 0x1_0000 && FindSync(noise + SYNC, 0) == Some(|noise|)
    ensures Steps(Tap(Hunting(0), out), noise + TapHeader(payload)) ==
      Tap(if |payload| <= BBCOM_RX_BUF_SIZE then Receiving(|payload|, []) else Hunting(0), out)
  {
    hide Steps, FindSync, TapHeader, Le16;
    var head := TapHeader(payload);
    var rest := head[5..];
    ConcatSplit(noise, head, 5);
    SyncTakes(noise, out);
    StepsConcat(Tap(Hunting(0), out), noise + SYNC, rest);
    HeadingTakes(SYNC, rest, out);
  }

  predicate Fits(g: Segment) {
    0 < |g.payload| <= BBCOM_RX_BUF_SIZE && FindSync(g.noise + SYNC, 0) == Some(|g.noise|)
  }

  function TapStream(segs: seq<Segment>, tail: seq<byte>): seq<byte>
    requires forall i :: 0 <= i < |segs| ==> Fits(segs[i])
  {
    if segs == [] then tail
    else
      assert Fits(segs[0]);
      segs[0].noise + TapFrame(segs[0].payload) + TapStream(segs[1..], tail)
  }

  /** A stream of noise and frames: exactly the payloads are written, in order. */
  lemma {:induction false} StreamWritesPayloads(segs: seq<Segment>, tail: seq<byte>, out: seq<seq<byte>>)
    requires (forall i :: 0 <= i < |segs| ==> Fits(segs[i])) && FindSync(tail, 0).None?
    ensures Steps(Tap(Hunting(0), out), TapStream(segs, tail)).out == out + Payloads(segs)
    decreases |segs|
  {
    if segs == [] {
      HuntFindsFirst(tail, 0, 0, out, |tail|);
      assert tail[0..|tail|] == tail;
    } else {
      var g := segs[0];
      SegmentTakes(g.noise, g.payload, out);
      StepsConcat(Tap(Hunting(0), out), g.noise + TapFrame(g.payload), TapStream(segs[1..], tail));
      StreamWritesPayloads(segs[1..], tail, out + [g.payload]);
      assert Payloads(segs) == [g.payload] + Payloads(segs[1..]);
    }
  }

  /** Once a header has announced no data, the bytes that follow fill the data buffer and no length test
      ever fires: the machine overruns the buffer exactly with the 4002nd of them. */
  lemma {:induction false} NoDataFills(got: seq<byte>, s: seq<byte>, out: seq<seq<byte>>)
    requires |got| + |s| <= BBCOM_RX_BUF_SIZE + 1
    ensures Steps(Tap(Receiving(0, got), out), s) == Tap(Receiving(0, got + s), out)
    decreases |s|
  {
    if s == [] {
      assert got + s == got;
    } else {
      assert got + [s[0]] + s[1..] == got + s;
      NoDataFills(got + [s[0]], s[1..], out);
    }
  }

  lemma {:induction false} OverrunStays(t: Tap, s: seq<byte>)
    requires TapOk(t) && t.mode.Overrun?
    ensures Steps(t, s) == t
    decreases |s|
  {
    if s != [] {
      OverrunStays(Step(t, s[0]), s[1..]);
    }
  }

  /** No payload longer than the buffer is ever written. */
  lemma {:induction false} WritesFit(t: Tap, s: seq<byte>)
    requires TapOk(t) && forall d :: d in t.out ==> 0 < |d| <= BBCOM_RX_BUF_SIZE
    ensures forall d :: d in Steps(t, s).out ==> 0 < |d| <= BBCOM_RX_BUF_SIZE
    decreases |s|
  {
    if s != [] {
      WritesFit(Step(t, s[0]), s[1..]);
    }
  }

  /** A frame of any length, alone: its payload is written exactly when it has 1 to 4000 bytes. */
  lemma FrameIsWrittenIff(payload: seq<byte>)
    requires |payload| < 0x1_0000
    ensures Steps(FRESH_TAP, TapFrame(payload)).out == [payload] <==> 0 < |payload| <= 4000
  {
    WritesFit(FRESH_TAP, TapFrame(payload));
    if 0 < |payload| <= BBCOM_RX_BUF_SIZE {
      assert [] + SYNC == SYNC && [] + TapFrame(payload) == TapFrame(payload);
      assert FindSync(SYNC, 0) == Some(0);
      SegmentTakes([], payload, []);
      assert [] + [payload] == [payload];
    } else {
      var out := Steps(FRESH_TAP, TapFrame(payload)).out;
      assert |out| == 1 ==> 0 < |out[0]| <= BBCOM_RX_BUF_SIZE;
    }
  }

  /** After a frame without data the receiver is deaf: whatever follows, frames included, is stored and
      not written, until exactly with the 4002nd byte it runs over the end of its data buffer. */
  lemma EmptyFrameSilences(later: seq<byte>)
    ensures var t := Steps(FRESH_TAP, TapFrame([]) + later);
      && (t.mode.Overrun? <==> |later| > 4001)
      && (|later| <= 4001 ==> t == Tap(Receiving(0, later), []))
  {
    hide Steps, TapHeader, Step;
    assert [] + SYNC == SYNC && [] + TapHeader([]) == TapFrame([]);
    assert FindSync(SYNC, 0) == Some(0);
    HeaderTakes([], [], []);
    StepsConcat(FRESH_TAP, TapFrame([]), later);
    if |later| <= BBCOM_RX_BUF_SIZE + 1 {
      NoDataFills([], later, []);
      assert [] + later == later;
    } else {
      FillsAndOverruns(later);
    }
  }

  lemma FillsAndOverruns(later: seq<byte>)
    requires |later| > BBCOM_RX_BUF_SIZE + 1
    ensures Steps(Tap(Receiving(0, []), []), later).mode.Overrun?
  {
    var n := BBCOM_RX_BUF_SIZE + 1;
    var full := Tap(Receiving(0, later[..n]), []);
    assert later == later[..n] + later[n..];
    StepsConcat(Tap(Receiving(0, []), []), later[..n], later[n..]);
    NoDataFills([], later[..n], []);
    assert [] + later[..n] == later[..n];
    assert Step(full, later[n]).mode.Overrun? && later[n..][0] == later[n];
    OverrunStays(Step(full, later[n]), later[n..][1..]);
  }
}
