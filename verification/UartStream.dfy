/** What the UART receiver makes of a stream of noise and frames, however the reads cut it. */
module UartStream {
  import opened Bytes
  import opened UartSpec

  /** A frame as uart_write sends it. */
  function Frame(payload: seq<byte>): (s: seq<byte>)
    requires |payload| < 0x1_0000
    ensures |s| == MSG_HEADER_SIZE + |payload|
  {
    SYNC + [|payload| % 256, |payload| / 256, XDS_MSG_ID_RPC, 0, 0, 0, 0, 0]
    + [Checksum(payload) % 256, Checksum(payload) / 256] + payload
  }

  /** Noise, then the bytes of a frame, whose checksum may be wrong. */
  datatype Item = Item(noise: seq<byte>, frame: seq<byte>)

  predicate BadLength(n: nat) {
    n == 0 || n > MSG_CMD_LENGTH_MAX
  }

  /** A sync that stands in the noise before a frame: it ends there too, and the length after it is one
      that no frame has. */
  predicate FalseHeader(noise: seq<byte>, i: nat)
    requires SyncAt(noise + SYNC, i) && i < |noise|
  {
    i + 5 <= |noise| && BadLength(Le16(noise + SYNC, i + 5))
  }

  /** Every sync in the noise before a frame is false. */
  ghost predicate Leads(noise: seq<byte>) {
    forall i: nat :: i < |noise| && SyncAt(noise + SYNC, i) ==> FalseHeader(noise, i)
  }

  /** What follows the last frame: a sync there has a length that no frame has, if it has one at all. */
  ghost predicate Trails(tail: seq<byte>) {
    forall i: nat :: SyncAt(tail, i) && i + 7 <= |tail| ==> BadLength(Le16(tail, i + 5))
  }

  /** A sync, a length the receiver accepts, and so many bytes behind the header. */
  predicate Framed(f: seq<byte>) {
    && MSG_HEADER_SIZE < |f| <= MSG_HEADER_SIZE + MSG_CMD_LENGTH_MAX
    && SyncAt(f, 0) && Le16(f, 5) == |f| - MSG_HEADER_SIZE
  }

  function Payload(f: seq<byte>): seq<byte> {
    if |f| < MSG_HEADER_SIZE then [] else f[MSG_HEADER_SIZE..]
  }

  predicate Sound(f: seq<byte>)
    requires Framed(f)
  {
    Checksum(Payload(f)) == Le16(f, 13)
  }

  /** The items with bytes put in front of the first one's noise, or of the tail. */
  function Before(x: seq<byte>, items: seq<Item>): (r: seq<Item>)
    ensures |r| == |items|
  {
    if items == [] then [] else [Item(x + items[0].noise, items[0].frame)] + items[1..]
  }

  function TailBefore(x: seq<byte>, items: seq<Item>, tail: seq<byte>): seq<byte> {
    if items == [] then x + tail else tail
  }

  /** Behind x, what comes next still has only false headers before the next frame. */
  ghost predicate Clears(x: seq<byte>, items: seq<Item>, tail: seq<byte>) {
    if items == [] then Trails(x + tail) else Leads(x + items[0].noise)
  }

  /** Noise before each frame is harmless, and so is a frame with a wrong checksum, once its own sync is
      taken away. */
  ghost predicate Fine(items: seq<Item>, tail: seq<byte>)
    decreases |items|
  {
    if items == [] then Trails(tail)
    else
      var f, rest := items[0].frame, items[1..];
      && Leads(items[0].noise) && Framed(f) && Fine(rest, tail)
      && (!Sound(f) ==> Clears(f[5..], rest, tail))
  }

  function Line(items: seq<Item>, tail: seq<byte>): seq<byte> {
    if items == [] then tail else items[0].noise + items[0].frame + Line(items[1..], tail)
  }

  function Frames(items: seq<Item>): (r: seq<seq<byte>>)
    ensures |r| == |items|
  {
    seq(|items|, i requires 0 <= i < |items| => items[i].frame)
  }

  /** out holds the payloads of the frames in order, every one of a sound frame among them. */
  predicate Picks(out: seq<seq<byte>>, frames: seq<seq<byte>>)
    decreases |frames|
  {
    if frames == [] then out == []
    else
      || (out != [] && out[0] == Payload(frames[0]) && Picks(out[1..], frames[1..]))
      || (Framed(frames[0]) && !Sound(frames[0]) && Picks(out, frames[1..]))
  }

  /** The receiver has taken the line up to some place between frames, or up to a header. */
  ghost predicate Aligned(p: Rx, later: seq<byte>, items: seq<Item>, tail: seq<byte>) {
    && Fine(items, tail)
    && p.buf + later == Line(items, tail)
    && RxOk(p)
    && (p.hdr ==> items != [] && items[0].noise == [])
  }

  lemma SyncIsLocal(s: seq<byte>, t: seq<byte>, i: nat, j: nat)
    requires SyncAt(s, i) && j + 5 <= |t| && t[j..j + 5] == s[i..i + 5]
    ensures SyncAt(t, j)
  {
    assert t[j] == t[j..j + 5][0] && t[j + 1] == t[j..j + 5][1] && t[j + 2] == t[j..j + 5][2];
    assert t[j + 3] == t[j..j + 5][3] && t[j + 4] == t[j..j + 5][4];
  }

  /** A sync before the frame's own is one of the noise. */
  lemma EarlySyncIsFalse(it: Item, rest: seq<byte>, i: nat)
    requires Leads(it.noise) && Framed(it.frame) && SyncAt(it.noise + it.frame + rest, i) && i < |it.noise|
    ensures SyncAt(it.noise + SYNC, i) && FalseHeader(it.noise, i)
    ensures BadLength(Le16(it.noise + it.frame + rest, i + 5))
  {
    var s, t := it.noise + it.frame + rest, it.noise + SYNC;
    assert it.frame[..5] == SYNC;
    assert s[..|t|] == t;
    assert t[i..i + 5] == s[i..i + 5];
    SyncIsLocal(s, t, i, i);
    assert FalseHeader(it.noise, i);
    assert t[i + 5] == s[..|t|][i + 5] && t[i + 6] == s[..|t|][i + 6];
  }

  /** Noise with its front cut off is still noise of the same kind. */
  lemma NoiseSuffix(noise: seq<byte>, n: nat)
    requires Leads(noise) && n <= |noise|
    ensures Leads(noise[n..])
  {
    var s, t := noise + SYNC, noise[n..] + SYNC;
    assert t == s[n..];
    forall i: nat | i < |noise[n..]| && SyncAt(t, i)
      ensures FalseHeader(noise[n..], i)
    {
      assert s[n + i..n + i + 5] == t[i..i + 5];
      SyncIsLocal(t, s, i, n + i);
      assert FalseHeader(noise, n + i);
      assert s[n + i + 5] == t[i + 5] && s[n + i + 6] == t[i + 6];
    }
  }

  lemma TailSuffix(tail: seq<byte>, n: nat)
    requires Trails(tail) && n <= |tail|
    ensures Trails(tail[n..])
  {
    var t := tail[n..];
    forall i: nat | SyncAt(t, i) && i + 7 <= |t|
      ensures BadLength(Le16(t, i + 5))
    {
      assert tail[n + i..n + i + 5] == t[i..i + 5];
      SyncIsLocal(t, tail, i, n + i);
      assert tail[n + i + 5] == t[i + 5] && tail[n + i + 6] == t[i + 6];
    }
  }

  // Looks.

  /** What a look at a frame's own bytes says: all of them or a part that covers the header. */
  lemma LookAtBytes(buf: seq<byte>, f: seq<byte>, hdr: bool, size: nat)
    requires Framed(f) && MSG_CMD_LENGTH_MAX <= size && MSG_HEADER_SIZE <= |buf|
    requires forall k :: 0 <= k < |buf| && k < |f| ==> buf[k] == f[k]
    ensures Look(buf, hdr, size) ==
      if |buf| < |f| then NotComplete(true)
      else if hdr || Sound(f) then Packet(|f|, |f| == |buf|)
      else Skip(buf, BadChecksum)
    ensures |buf| >= |f| ==> buf[MSG_HEADER_SIZE..|f|] == Payload(f)
  {
    assert SyncAt(buf, 0) && Le16(buf, 5) == Le16(f, 5) && Le16(buf, 13) == Le16(f, 13);
    if |buf| >= |f| {
      assert buf[MSG_HEADER_SIZE..|f|] == f[MSG_HEADER_SIZE..];
    }
  }

  /** Where the next frame starts right here, the receiver waits for all of it; then it takes it, or
      skips it if it looks at its checksum and that is wrong. */
  lemma LookAtFrame(p: Rx, later: seq<byte>, items: seq<Item>, tail: seq<byte>, size: nat)
    requires Aligned(p, later, items, tail) && MSG_CMD_LENGTH_MAX <= size
    requires items != [] && items[0].noise == [] && MSG_HEADER_SIZE <= |p.buf|
    ensures var f := items[0].frame;
      if |p.buf| < |f| then
        Look(p.buf, p.hdr, size) == NotComplete(true) && later != []
      else
        && Look(p.buf, p.hdr, size) == (if p.hdr || Sound(f) then Packet(|f|, |f| == |p.buf|) else Skip(p.buf, BadChecksum))
        && p.buf[MSG_HEADER_SIZE..|f|] == Payload(f)
        && p.buf[|f|..] + later == Line(items[1..], tail)
        && p.buf[5..] + later == f[5..] + Line(items[1..], tail)
  {
    hide Look, FindSync, Sound, Leads, Trails;
    var f, rest := items[0].frame, Line(items[1..], tail);
    assert p.buf + later == f + rest;
    forall k | 0 <= k < |p.buf| && k < |f|
      ensures p.buf[k] == f[k]
    {
      assert (p.buf + later)[k] == (f + rest)[k];
    }
    LookAtBytes(p.buf, f, p.hdr, size);
    if |p.buf| >= |f| {
      assert p.buf[|f|..] + later == (p.buf + later)[|f|..];
      assert p.buf[5..] + later == (p.buf + later)[5..] == (f + rest)[5..] == f[5..] + rest;
    }
  }

  /** A sync at the front, before the next frame or after the last one, has a bad length. */
  lemma FrontSyncIsFalse(p: Rx, later: seq<byte>, items: seq<Item>, tail: seq<byte>)
    requires Aligned(p, later, items, tail) && MSG_HEADER_SIZE <= |p.buf|
    requires (items != [] ==> items[0].noise != []) && SyncAt(p.buf, 0)
    ensures BadLength(Le16(p.buf, 5))
    ensures items != [] ==> 5 <= |items[0].noise|
  {
    var s := Line(items, tail);
    assert (p.buf + later)[..5] == p.buf[..5];
    SyncIsLocal(p.buf, s, 0, 0);
    assert s[5] == p.buf[5] && s[6] == p.buf[6];
    if items != [] {
      EarlySyncIsFalse(items[0], Line(items[1..], tail), 0);
    }
  }

  /** The frame's own sync, if it has arrived whole. */
  lemma OwnSync(p: Rx, later: seq<byte>, items: seq<Item>, tail: seq<byte>)
    requires Aligned(p, later, items, tail) && items != []
    ensures |items[0].noise| + 5 <= |p.buf| ==> SyncAt(p.buf, |items[0].noise|)
    ensures |p.buf| < |items[0].noise| + MSG_HEADER_SIZE ==> later != []
  {
    var it, s := items[0], Line(items, tail);
    if |p.buf| >= |it.noise| + 5 {
      assert p.buf[|it.noise|..|it.noise| + 5] == s[|it.noise|..|it.noise| + 5] == it.frame[..5];
      SyncIsLocal(it.frame, p.buf, 0, |it.noise|);
    }
    assert |s| >= |it.noise| + MSG_HEADER_SIZE;
  }

  /** How far the scan for the next sync goes: up to it, or up to four bytes before the end. */
  function Reach(buf: seq<byte>): (n: nat)
    requires 4 <= |buf|
  {
    if FindSync(buf, 0).Some? then FindSync(buf, 0).value else |buf| - 4
  }

  /** The scan stays inside the noise before the next frame. */
  lemma ReachesNoFurther(p: Rx, later: seq<byte>, items: seq<Item>, tail: seq<byte>)
    requires Aligned(p, later, items, tail) && 4 <= |p.buf|
    ensures Reach(p.buf) <= if items == [] then |tail| else |items[0].noise|
    ensures FindSync(p.buf, 0).None? && later == [] ==> items == []
  {
    assert |p.buf| <= |Line(items, tail)|;
    if items != [] {
      OwnSync(p, later, items, tail);
    }
    hide Aligned, Line;
  }

  lemma SkipIsReach(buf: seq<byte>, why: Reason)
    requires MSG_HEADER_SIZE <= |buf|
    ensures Skip(buf, why) == Drop(5 + Reach(buf[5..]), FindSync(buf[5..], 0).None?, why)
  {
  }

  /** A drop before the next frame, or after the last one. */
  lemma LookIsReach(buf: seq<byte>, size: nat)
    requires MSG_HEADER_SIZE <= |buf| && (SyncAt(buf, 0) ==> BadLength(Le16(buf, 5)))
    ensures Look(buf, false, size) ==
      if SyncAt(buf, 0) then Skip(buf, FrameLength) else Drop(Reach(buf), FindSync(buf, 0).None?, Gap)
  {
  }

  /** The first n bytes of the noise are dropped. */
  lemma DropNoise(p: Rx, later: seq<byte>, items: seq<Item>, tail: seq<byte>, n: nat, why: Reason)
    returns (items': seq<Item>, tail': seq<byte>)
    requires Aligned(p, later, items, tail) && !p.hdr && n <= |p.buf|
    requires n <= if items == [] then |tail| else |items[0].noise|
    ensures Aligned(Dropped(p, n, why), later, items', tail')
    ensures Frames(items') == Frames(items)
  {
    assert p.buf[n..] + later == (p.buf + later)[n..];
    if items == [] {
      items', tail' := [], tail[n..];
      TailSuffix(tail, n);
    } else {
      items', tail' := [Item(items[0].noise[n..], items[0].frame)] + items[1..], tail;
      NoiseSuffix(items[0].noise, n);
      assert items'[1..] == items[1..];
      assert Line(items, tail)[n..] == Line(items', tail);
    }
  }

  lemma DropsTwice(p: Rx, m: nat, n: nat, why: Reason)
    requires m + n <= |p.buf|
    ensures Dropped(Dropped(p, m, why), n, why) == Dropped(p, m + n, why)
  {
    assert p.buf[m..][n..] == p.buf[m + n..];
  }

  /** Before the next frame or after the last one, the receiver drops only noise: up to the next sync, or
      a false header and everything up to the next sync behind it. */
  lemma LookAtNoise(p: Rx, later: seq<byte>, items: seq<Item>, tail: seq<byte>, size: nat)
    returns (items': seq<Item>, tail': seq<byte>)
    requires Aligned(p, later, items, tail) && !p.hdr && MSG_HEADER_SIZE <= |p.buf|
    requires items != [] ==> items[0].noise != []
    ensures var o := Look(p.buf, p.hdr, size);
      && o.Drop?
      && Aligned(Dropped(p, o.n, o.why), later, items', tail') && Frames(items') == Frames(items)
      && (o.last && later == [] ==> items' == [])
  {
    if SyncAt(p.buf, 0) {
      FrontSyncIsFalse(p, later, items, tail);
      LookIsReach(p.buf, size);
      SkipIsReach(p.buf, FrameLength);
      assert items == [] ==> 5 <= |tail|;
      hide Aligned, Look, Skip, Reach, FindSync, Frames;
      items', tail' := DropNoise(p, later, items, tail, 5, FrameLength);
      items', tail' := Further(p, later, items', tail', FrameLength);
    } else {
      LookIsReach(p.buf, size);
      ReachesNoFurther(p, later, items, tail);
      hide Aligned, Look, Reach, FindSync, Frames;
      items', tail' := DropNoise(p, later, items, tail, Reach(p.buf), Gap);
      SameCount(items, items');
    }
  }

  lemma SameCount(items: seq<Item>, items': seq<Item>)
    requires Frames(items) == Frames(items')
    ensures |items| == |items'|
  {
  }

  /** With five bytes of it gone, everything up to the next sync is dropped as well. */
  lemma Further(p: Rx, later: seq<byte>, items: seq<Item>, tail: seq<byte>, why: Reason)
    returns (items': seq<Item>, tail': seq<byte>)
    requires !p.hdr && MSG_HEADER_SIZE <= |p.buf| && Aligned(Dropped(p, 5, why), later, items, tail)
    ensures Skip(p.buf, why).Drop? && Skip(p.buf, why).why == why
    ensures Aligned(Dropped(p, Skip(p.buf, why).n, why), later, items', tail') && Frames(items') == Frames(items)
    ensures Skip(p.buf, why).last && later == [] ==> items' == []
  {
    var q := Dropped(p, 5, why);
    assert q.buf == p.buf[5..] && !q.hdr;
    SkipIsReach(p.buf, why);
    ReachesNoFurther(q, later, items, tail);
    var n := Reach(q.buf);
    assert n <= |q.buf| && Skip(p.buf, why) == Drop(5 + n, FindSync(q.buf, 0).None?, why);
    DropsTwice(p, 5, n, why);
    hide Aligned, Reach, FindSync, Frames, Skip, Dropped;
    items', tail' := DropNoise(q, later, items, tail, n, why);
    SameCount(items, items');
  }

  lemma LineBefore(x: seq<byte>, items: seq<Item>, tail: seq<byte>)
    requires Fine(items, tail) && Clears(x, items, tail)
    ensures Fine(Before(x, items), TailBefore(x, items, tail))
    ensures Line(Before(x, items), TailBefore(x, items, tail)) == x + Line(items, tail)
    ensures Frames(Before(x, items)) == Frames(items)
  {
    hide Leads, Trails, Framed, Sound;
    if items != [] {
      assert Before(x, items)[1..] == items[1..];
    }
  }

  /** A frame that is found corrupt is dropped with everything up to the next sync. */
  lemma SkipFrame(p: Rx, later: seq<byte>, items: seq<Item>, tail: seq<byte>)
    returns (items': seq<Item>, tail': seq<byte>)
    requires Aligned(p, later, items, tail) && !p.hdr && MSG_HEADER_SIZE <= |p.buf|
    requires items != [] && !Sound(items[0].frame)
    requires p.buf[5..] + later == items[0].frame[5..] + Line(items[1..], tail)
    ensures var o := Skip(p.buf, BadChecksum);
      && o.Drop? && o.why == BadChecksum
      && Aligned(Dropped(p, o.n, BadChecksum), later, items', tail') && Frames(items') == Frames(items[1..])
      && (o.last && later == [] ==> items' == [])
  {
    var x, rest := items[0].frame[5..], items[1..];
    LineBefore(x, rest, tail);
    assert Aligned(Dropped(p, 5, BadChecksum), later, Before(x, rest), TailBefore(x, rest, tail));
    hide Aligned, Frames, Skip, Before;
    items', tail' := Further(p, later, Before(x, rest), TailBefore(x, rest, tail), BadChecksum);
  }

  lemma TakeFrame(p: Rx, later: seq<byte>, items: seq<Item>, tail: seq<byte>)
    requires Aligned(p, later, items, tail) && items != [] && MSG_HEADER_SIZE <= |items[0].frame| <= |p.buf|
    requires p.buf[MSG_HEADER_SIZE..|items[0].frame|] == Payload(items[0].frame)
    requires p.buf[|items[0].frame|..] + later == Line(items[1..], tail)
    ensures var q := Delivered(p, |items[0].frame|);
      Aligned(q, later, items[1..], tail) && q.out == p.out + [Payload(items[0].frame)]
  {
  }

  // Deliveries.

  /** With got delivered, what may be delivered of the frames in now completes it to what may be
      delivered of those in then. */
  ghost predicate Completes(got: seq<seq<byte>>, was: seq<seq<byte>>, now: seq<seq<byte>>) {
    forall more :: Picks(more, now) ==> Picks(got + more, was)
  }

  lemma NothingYet(frames: seq<seq<byte>>)
    ensures Completes([], frames, frames)
  {
    assert forall more: seq<seq<byte>> :: [] + more == more;
  }

  lemma Taken(frames: seq<seq<byte>>)
    requires frames != []
    ensures Completes([Payload(frames[0])], frames, frames[1..])
  {
    forall more | Picks(more, frames[1..])
      ensures Picks([Payload(frames[0])] + more, frames)
    {
      assert ([Payload(frames[0])] + more)[1..] == more;
    }
  }

  lemma Skipped(frames: seq<seq<byte>>)
    requires frames != [] && Framed(frames[0]) && !Sound(frames[0])
    ensures Completes([], frames, frames[1..])
  {
    forall more | Picks(more, frames[1..])
      ensures Picks([] + more, frames)
    {
      assert [] + more == more;
    }
  }

  lemma CompletesChain(a: seq<seq<byte>>, b: seq<seq<byte>>, f: seq<seq<byte>>, g: seq<seq<byte>>, h: seq<seq<byte>>)
    requires Completes(a, f, g) && Completes(b, g, h)
    ensures Completes(a + b, f, h)
  {
    forall more | Picks(more, h)
      ensures Picks(a + b + more, f)
    {
      assert a + b + more == a + (b + more);
    }
  }

  lemma FramesRest(items: seq<Item>)
    requires items != []
    ensures Frames(items)[0] == items[0].frame && Frames(items)[1..] == Frames(items[1..])
  {
  }

  /** The state of one pass: where it stands in the line, and what it has delivered. */
  ghost predicate Passed(p: Rx, q: Rx, later: seq<byte>, items: seq<Item>, items': seq<Item>, tail': seq<byte>,
                         got: seq<seq<byte>>) {
    && Aligned(q, later, items', tail') && q.out == p.out + got
    && Completes(got, Frames(items), Frames(items'))
  }

  /** One step of a pass that begins with a frame. */
  lemma FrameStep(p: Rx, later: seq<byte>, items: seq<Item>, tail: seq<byte>, size: nat)
    returns (q: Rx, items': seq<Item>, tail': seq<byte>, got: seq<seq<byte>>)
    requires Aligned(p, later, items, tail) && MSG_CMD_LENGTH_MAX <= size
    requires items != [] && items[0].noise == [] && MSG_HEADER_SIZE <= |p.buf|
    ensures Passed(p, q, later, items, items', tail', got) && Stepped(p, q, size)
    ensures Ends(p, size) && later == [] ==> items' == []
  {
    var f := items[0].frame;
    assert Framed(f) && MSG_HEADER_SIZE <= |f|;
    assert p.hdr ==> RxOk(p);
    LookAtFrame(p, later, items, tail, size);
    FramesRest(items);
    items', tail', got := items[1..], tail, [];
    if |p.buf| < |f| {
      q, items' := p.(hdr := true), items;
      NothingYet(Frames(items));
    } else if p.hdr || Sound(f) {
      q, got := Delivered(p, |f|), [Payload(f)];
      TakeFrame(p, later, items, tail);
      Taken(Frames(items));
      if |f| == |p.buf| {
        EndOfLine(q, later, items[1..], tail);
      }
    } else {
      items', tail' := SkipFrame(p, later, items, tail);
      q := Dropped(p, Skip(p.buf, BadChecksum).n, BadChecksum);
      Skipped(Frames(items));
    }
    hide Look, Aligned, Skip, Framed, Sound, Completes, Frames, Line, Fine;
  }

  lemma EndOfLine(p: Rx, later: seq<byte>, items: seq<Item>, tail: seq<byte>)
    requires Aligned(p, later, items, tail) && |p.buf| < MSG_HEADER_SIZE
    ensures later == [] ==> items == []
  {
  }

  /** q is what one look at p comes to. */
  predicate Stepped(p: Rx, q: Rx, size: nat)
    requires RxOk(p)
  {
    q == match Look(p.buf, p.hdr, size)
      case NotComplete(h) => p.(hdr := h)
      case Drop(n, _, why) => Dropped(p, n, why)
      case Packet(n, _) => Delivered(p, n)
  }

  predicate Ends(p: Rx, size: nat)
    requires RxOk(p)
  {
    var o := Look(p.buf, p.hdr, size);
    o.NotComplete? || (o.Drop? && o.last) || (o.Packet? && o.last)
  }

  lemma ProcessUnfolds(p: Rx, q: Rx, size: nat)
    requires RxOk(p) && Stepped(p, q, size)
    ensures RxOk(q) && Process(p, size) == if Ends(p, size) then q else Process(q, size)
    ensures !Ends(p, size) ==> |q.buf| < |p.buf|
  {
  }

  lemma NoiseStep(p: Rx, later: seq<byte>, items: seq<Item>, tail: seq<byte>, size: nat)
    returns (q: Rx, items': seq<Item>, tail': seq<byte>)
    requires Aligned(p, later, items, tail) && !p.hdr && MSG_HEADER_SIZE <= |p.buf|
    requires items != [] ==> items[0].noise != []
    ensures Passed(p, q, later, items, items', tail', []) && Stepped(p, q, size)
    ensures Ends(p, size) && later == [] ==> items' == []
  {
    items', tail' := LookAtNoise(p, later, items, tail, size);
    var o := Look(p.buf, p.hdr, size);
    q := Dropped(p, o.n, o.why);
    assert q.out == p.out + [];
    NothingYet(Frames(items));
    hide Look, Aligned, Completes, Frames;
  }

  /** One pass delivers payloads of the line in order and stays aligned with it; when nothing more is to
      come nothing is left. */
  lemma {:induction false} ProcessDelivers(p: Rx, later: seq<byte>, items: seq<Item>, tail: seq<byte>, size: nat)
    returns (items': seq<Item>, tail': seq<byte>, got: seq<seq<byte>>)
    requires Aligned(p, later, items, tail) && MSG_CMD_LENGTH_MAX <= size
    ensures RxOk(p) && Passed(p, Process(p, size), later, items, items', tail', got)
    ensures later == [] ==> items' == []
    decreases |p.buf|
  {
    FacesHeader(p, later, items, tail);
    hide Look, Aligned, Process, Stepped, Ends, Passed, RxOk;
    if |p.buf| < MSG_HEADER_SIZE {
      TooShort(p, later, items, tail, size);
      items', tail', got := items, tail, [];
    } else {
      var q: Rx;
      if items != [] && items[0].noise == [] {
        q, items', tail', got := FrameStep(p, later, items, tail, size);
      } else {
        q, items', tail' := NoiseStep(p, later, items, tail, size);
        got := [];
      }
      ProcessUnfolds(p, q, size);
      if !Ends(p, size) {
        PassedIsAligned(p, q, later, items, items', tail', got);
        var items2, tail2, got2 := ProcessDelivers(q, later, items', tail', size);
        PassedChain(p, q, Process(q, size), later, items, items', tail', items2, tail2, got, got2);
        items', tail', got := items2, tail2, got + got2;
      }
    }
  }

  lemma FacesHeader(p: Rx, later: seq<byte>, items: seq<Item>, tail: seq<byte>)
    requires Aligned(p, later, items, tail)
    ensures RxOk(p) && (p.hdr ==> MSG_HEADER_SIZE <= |p.buf| && items != [] && items[0].noise == [])
  {
  }

  lemma PassedIsAligned(p: Rx, q: Rx, later: seq<byte>, items: seq<Item>, items': seq<Item>, tail': seq<byte>,
                        got: seq<seq<byte>>)
    requires Passed(p, q, later, items, items', tail', got)
    ensures Aligned(q, later, items', tail')
  {
  }

  lemma PassedChain(p: Rx, q: Rx, r: Rx, later: seq<byte>, items: seq<Item>, items1: seq<Item>, tail1: seq<byte>,
                    items2: seq<Item>, tail2: seq<byte>, got1: seq<seq<byte>>, got2: seq<seq<byte>>)
    requires Passed(p, q, later, items, items1, tail1, got1) && Passed(q, r, later, items1, items2, tail2, got2)
    ensures Passed(p, r, later, items, items2, tail2, got1 + got2)
  {
    hide Aligned, Frames;
    CompletesChain(got1, got2, Frames(items), Frames(items1), Frames(items2));
    hide Completes;
    assert p.out + got1 + got2 == p.out + (got1 + got2);
  }

  lemma TooShort(p: Rx, later: seq<byte>, items: seq<Item>, tail: seq<byte>, size: nat)
    requires Aligned(p, later, items, tail) && |p.buf| < MSG_HEADER_SIZE
    ensures RxOk(p) && Passed(p, Process(p, size), later, items, items, tail, [])
    ensures later == [] ==> items == []
  {
    assert Process(p, size) == p;
    assert later == [] ==> items == [];
    assert p.out == p.out + [];
    hide Aligned, Process;
    NothingYet(Frames(items));
  }

  /** For any cut of the rest of the line into reads. */
  lemma {:induction false} AllDelivered(p: Rx, chunks: seq<seq<byte>>, items: seq<Item>, tail: seq<byte>, size: nat)
    returns (got: seq<seq<byte>>)
    requires MSG_CMD_LENGTH_MAX <= size
    requires Aligned(p, Flatten(chunks), items, tail) && (chunks == [] ==> items == [])
    ensures RxOk(p) && FeedAll(p, chunks, size).out == p.out + got && Picks(got, Frames(items))
    decreases |chunks|
  {
    hide Process, Frames, Picks;
    if chunks == [] {
      got := [];
      NoFrames();
    } else {
      var later := Flatten(chunks[1..]);
      var q := p.(buf := p.buf + chunks[0]);
      assert q.buf + later == p.buf + Flatten(chunks);
      var items', tail', got1 := ProcessDelivers(q, later, items, tail, size);
      var got2 := AllDelivered(Process(q, size), chunks[1..], items', tail', size);
      got := got1 + got2;
      assert p.out + got1 + got2 == p.out + got;
    }
  }

  lemma NoFrames()
    ensures Frames([]) == [] && Picks([], [])
  {
  }

  /** The receiver of a fresh line, reading noise, false headers and frames in any pieces: the payload of
      every frame with a right checksum is delivered, in order, and of those with a wrong one some. */
  lemma SoundFramesAreDelivered(chunks: seq<seq<byte>>, items: seq<Item>, tail: seq<byte>, size: nat)
    requires MSG_CMD_LENGTH_MAX <= size && Fine(items, tail) && Flatten(chunks) == Line(items, tail)
    ensures Picks(FeedAll(FRESH, chunks, size).out, Frames(items))
  {
    assert [] + Flatten(chunks) == Flatten(chunks);
    assert Aligned(FRESH, Flatten(chunks), items, tail);
    assert items != [] ==> |Line(items, tail)| > 0;
    hide Aligned, Fine, Line, Picks, Frames;
    var got := AllDelivered(FRESH, chunks, items, tail, size);
    assert FRESH.out + got == got;
  }

  // Without corruption.

  /** Noise, then the frame of a payload. */
  datatype Segment = Segment(noise: seq<byte>, payload: seq<byte>)

  /** The payload has a length the receiver accepts, and every sync before the frame's own is false. */
  ghost predicate Good(g: Segment) {
    0 < |g.payload| <= 4134 && Leads(g.noise)
  }

  ghost predicate AllGood(segs: seq<Segment>) {
    forall i :: 0 <= i < |segs| ==> Good(segs[i])
  }

  /** The segments in order, then what follows them. */
  ghost function Stream(segs: seq<Segment>, tail: seq<byte>): seq<byte>
    requires AllGood(segs)
  {
    if segs == [] then tail
    else segs[0].noise + Frame(segs[0].payload) + Stream(segs[1..], tail)
  }

  function Payloads(segs: seq<Segment>): seq<seq<byte>> {
    seq(|segs|, i requires 0 <= i < |segs| => segs[i].payload)
  }

  lemma FrameIsSound(payload: seq<byte>)
    requires 0 < |payload| <= MSG_CMD_LENGTH_MAX
    ensures Framed(Frame(payload)) && Sound(Frame(payload)) && Payload(Frame(payload)) == payload
  {
  }

  lemma {:induction false} StreamIsLine(segs: seq<Segment>, tail: seq<byte>) returns (items: seq<Item>)
    requires AllGood(segs) && Trails(tail)
    ensures Fine(items, tail) && Line(items, tail) == Stream(segs, tail)
    ensures forall out :: Picks(out, Frames(items)) ==> out == Payloads(segs)
  {
    if segs == [] {
      items := [];
    } else {
      var rest := StreamIsLine(segs[1..], tail);
      FrameIsSound(segs[0].payload);
      items := [Item(segs[0].noise, Frame(segs[0].payload))] + rest;
      assert items[1..] == rest;
      FramesRest(items);
      hide Frame, Frames, Sound, Framed, Payload, Leads, Trails;
      forall out | Picks(out, Frames(items))
        ensures out == Payloads(segs)
      {
        assert Sound(Frames(items)[0]);
        assert Picks(out[1..], Frames(rest));
        assert out[1..] == Payloads(segs[1..]);
        assert out == [segs[0].payload] + out[1..];
      }
    }
  }

  /** The receiver of a fresh line, reading noise, false headers and good frames in any pieces, delivers
      the payloads of the frames, all of them and in order. */
  lemma EveryCutDeliversThePayloads(chunks: seq<seq<byte>>, segs: seq<Segment>, tail: seq<byte>, size: nat)
    requires MSG_CMD_LENGTH_MAX <= size && AllGood(segs) && Trails(tail)
    requires Flatten(chunks) == Stream(segs, tail)
    ensures FeedAll(FRESH, chunks, size).out == Payloads(segs)
  {
    var items := StreamIsLine(segs, tail);
    SoundFramesAreDelivered(chunks, items, tail, size);
  }
}
