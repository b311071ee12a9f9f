/** Reading packs from an application's socket: rpc_socket_read of daemon/sock_node_rpc.c. */
module RpcSocket {
  import opened Bytes
  import opened Framing
  import opened Reassembly
  import opened UsbPack

  /** The pack that a frame carries. */
  function Decode(frame: seq<byte>): Pack {
    if ValidAt(USB, frame, 0) then PackAt(frame, 0) else Pack(0, 0, 0, [])
  }

  function Packs(frames: seq<seq<byte>>): seq<Pack> {
    seq(|frames|, i requires 0 <= i < |frames| => Decode(frames[i]))
  }

  lemma DecodeIsPackAt(s: seq<byte>, o: nat)
    requires ValidAt(USB, s, o)
    ensures Decode(s[o..End(USB, s, o)]) == PackAt(s, o)
  {
    UnpackRoundTrip(s, o);
    var p := PackAt(s, o);
    PackRoundTrip([], p, []);
    assert [] + Encoded(p) + [] == Encoded(p);
  }

  lemma NoPacks()
    ensures Packs([]) == []
  {
  }

  lemma PacksConcat(a: seq<seq<byte>>, b: seq<seq<byte>>)
    ensures Packs(a + b) == Packs(a) + Packs(b)
  {
  }

  /** The frames taken so far, and those still to come from offset on, make up the whole drain. */
  ghost predicate Underway(s: seq<byte>, offset: nat, frames: seq<seq<byte>>)
    requires offset <= |s|
  {
    Drain(USB, s) == Taken(frames + Drain(USB, s[offset..]).frames, Drain(USB, s[offset..]).rest)
  }

  lemma TakeOne(s: seq<byte>, offset: nat, frames: seq<seq<byte>>) returns (frame: seq<byte>)
    requires offset <= |s| && Underway(s, offset, frames) && Find(USB, s[offset..], 0).Some?
    ensures var o := Find(USB, s[offset..], 0).value; var e := End(USB, s[offset..], o);
      && offset + e <= |s|
      && Underway(s, offset + e, frames + [frame])
      && Packs(frames + [frame]) == Packs(frames) + [PackAt(s[offset..], o)]
  {
    hide ValidAt, End, Find, PackAt, Drain;
    var left := s[offset..];
    var o := Find(USB, left, 0).value;
    var e := End(USB, left, o);
    frame := left[o..e];
    DrainStep(USB, left, o, e);
    DecodeIsPackAt(left, o);
    assert left[e..] == s[offset + e..];
    var later := Drain(USB, left[e..]).frames;
    assert frames + ([frame] + later) == (frames + [frame]) + later;
  }

  /** How many of the oldest saved bytes give way when a piece does not fit any more. */
  function Overflow(saved: nat, len: nat, max: nat): nat {
    if saved + len > max then saved + len - max else 0
  }

  class SockRpcReader {
    const rxSavebuffer: array<byte>
    const rxSavemax: nat
    var rxSavelen: nat
    var dispatched: seq<Pack>

    ghost predicate Valid()
      reads this
    {
      rxSavelen <= rxSavemax == rxSavebuffer.Length < 0x1_0000_0000
    }

    ghost function Saved(): seq<byte>
      requires Valid()
      reads this, rxSavebuffer
    {
      rxSavebuffer[..rxSavelen]
    }

    constructor (max: nat)
      requires max < 0x1_0000_0000
      ensures Valid() && rxSavemax == max && Saved() == [] && dispatched == []
    {
      rxSavebuffer := new byte[max](_ => 0);
      rxSavemax := max;
      rxSavelen := 0;
      dispatched := [];
    }

    /** memmove of everything from index offset on to the front. */
    method DropFront(offset: nat)
      requires Valid() && offset <= rxSavelen
      modifies this`rxSavelen, rxSavebuffer
      ensures Valid() && Saved() == old(Saved())[offset..]
    {
      var leftlen := rxSavelen - offset;
      forall k | 0 <= k < leftlen {
        rxSavebuffer[k] := rxSavebuffer[offset + k];
      }
      rxSavelen := leftlen;
    }

    method Append(buff: seq<byte>)
      requires Valid() && rxSavelen + |buff| <= rxSavemax
      modifies this`rxSavelen, rxSavebuffer
      ensures Valid() && Saved() == old(Saved()) + buff
    {
      forall k | 0 <= k < |buff| {
        rxSavebuffer[rxSavelen + k] := buff[k];
      }
      rxSavelen := rxSavelen + |buff|;
    }

    /** Takes every complete pack out of the saved bytes and hands each to the dispatcher. */
    method TakePacks() returns (offset: nat)
      requires Valid()
      modifies this`dispatched
      ensures offset <= rxSavelen
      ensures Saved()[offset..] == Drain(USB, Saved()).rest
      ensures dispatched == old(dispatched) + Packs(Drain(USB, Saved()).frames)
    {
      hide ValidAt, End, Find, PackAt, Drain, Packs;
      offset := 0;
      ghost var s := Saved();
      ghost var frames: seq<seq<byte>> := [];
      assert s[0..] == s && frames + Drain(USB, s).frames == Drain(USB, s).frames;
      assert Packs(frames) == [] by { NoPacks(); }
      while true
        invariant offset <= rxSavelen
        invariant Underway(s, offset, frames)
        invariant dispatched == old(dispatched) + Packs(frames)
        decreases rxSavelen - offset
      {
        var ret, retoffset, pack := UnpackUsbPack(rxSavebuffer, offset, rxSavelen - offset);
        assert rxSavebuffer[offset..offset + (rxSavelen - offset)] == s[offset..];
        if ret != 0 {
          DrainNothing(USB, s[offset..]);
          assert frames + [] == frames;
          return;
        }
        ghost var frame := TakeOne(s, offset, frames);
        frames := frames + [frame];
        dispatched := dispatched + [pack.value];
        offset := offset + retoffset;
      }
    }

    /** rpc_socket_read: one piece of the stream, no longer than the buffer. */
    method Read(buff: seq<byte>)
      requires Valid() && |buff| <= rxSavemax
      modifies this`rxSavelen, this`dispatched, rxSavebuffer
      ensures Valid()
      ensures var kept := old(Saved())[Overflow(old(rxSavelen), |buff|, rxSavemax)..];
        && Saved() == Drain(USB, kept + buff).rest
        && dispatched == old(dispatched) + Packs(Drain(USB, kept + buff).frames)
        && if old(rxSavelen) + |buff| <= rxSavemax then kept == old(Saved()) else |kept| + |buff| == rxSavemax
    {
      if rxSavelen + |buff| > rxSavemax {
        DropFront(rxSavelen + |buff| - rxSavemax);
      }
      Append(buff);
      var offset := TakePacks();
      if offset >= rxSavelen {
        rxSavelen := 0;
      } else if offset != 0 {
        DropFront(offset);
      }
    }
  }

  predicate NeverOverflows(save: seq<byte>, pieces: seq<seq<byte>>, max: nat)
    decreases |pieces|
  {
    pieces == [] ||
    (|save| + |pieces[0]| <= max && NeverOverflows(Drain(USB, save + pieces[0]).rest, pieces[1..], max))
  }

  /** The receive loop: one read after another. */
  method ReadPieces(r: SockRpcReader, pieces: seq<seq<byte>>)
    requires r.Valid() && NeverOverflows(r.Saved(), pieces, r.rxSavemax)
    modifies r`rxSavelen, r`dispatched, r.rxSavebuffer
    ensures r.Valid()
    ensures var t := Feed(USB, old(r.Saved()), pieces);
      r.Saved() == t.rest && r.dispatched == old(r.dispatched) + Packs(t.frames)
  {
    hide Drain, Packs, ValidAt, End, Find;
    NoPacks();
    ghost var frames: seq<seq<byte>> := [];
    ghost var t := Feed(USB, r.Saved(), pieces);
    assert pieces[0..] == pieces && frames + t.frames == t.frames;
    for i := 0 to |pieces|
      invariant r.Valid() && NeverOverflows(r.Saved(), pieces[i..], r.rxSavemax)
      invariant t.frames == frames + Feed(USB, r.Saved(), pieces[i..]).frames
      invariant t.rest == Feed(USB, r.Saved(), pieces[i..]).rest
      invariant r.dispatched == old(r.dispatched) + Packs(frames)
    {
      ghost var save := r.Saved();
      ghost var taken := Drain(USB, save + pieces[i]);
      r.Read(pieces[i]);
      assert save[0..] == save;
      assert pieces[i..][1..] == pieces[i + 1..];
      assert frames + (taken.frames + Feed(USB, taken.rest, pieces[i + 1..]).frames)
          == (frames + taken.frames) + Feed(USB, taken.rest, pieces[i + 1..]).frames;
      PacksConcat(frames, taken.frames);
      frames := frames + taken.frames;
    }
    assert pieces[|pieces|..] == [];
    assert frames + [] == frames;
  }

  /** A pack whose data is itself a whole pack can be missed: one byte before its end the inner pack
      is complete, and a reader given the stream cut there takes a shorter frame first. */
  lemma NestedPackOvertakes(p: Pack, q: Pack)
    requires |q.data| < 0x1_0000_0000 && p.data == Encoded(q) && |p.data| < 0x1_0000_0000
    ensures var s := Encoded(p); var cut := |s| - 1;
      Drain(USB, s).frames == [s] && Feed(USB, [], [s[..cut], s[cut..]]).frames != [s]
  {
    hide ValidAt, End, PackAt, Drain, Feed;
    var s := Encoded(p);
    PackRoundTrip([], p, []);
    assert [] + s + [] == s;
    assert Find(USB, s, 0) == Some(0);
    DrainStep(USB, s, 0, |s|);
    DrainNothing(USB, []);
    assert s[|s|..] == [] && s[0..|s|] == s;
    PackRoundTrip(s[..18], q, [0xbb]);
    assert s == s[..18] + Encoded(q) + [0xbb];
    OtherFrameFirst(USB, s, 18);
  }

  /** A whole connection: every piece read in turn by a reader that never has to drop bytes. If the
      stream's valid frames do not overlap, the packs dispatched do not depend on the pieces. */
  lemma PiecesDoNotMatter(pieces: seq<seq<byte>>, pieces': seq<seq<byte>>)
    requires Flatten(pieces) == Flatten(pieces') && Disjoint(USB, Flatten(pieces))
    ensures Packs(Feed(USB, [], pieces).frames) == Packs(Feed(USB, [], pieces').frames)
  {
    DisjointEndsFirst(USB, Flatten(pieces));
    CuttingNeverMattersIff(USB, Flatten(pieces));
  }

  function EncodedAll(packs: seq<Pack>): seq<byte>
    requires forall p :: p in packs ==> |p.data| < 0x1_0000_0000
  {
    if packs == [] then [] else Encoded(packs[0]) + EncodedAll(packs[1..])
  }

  /** A stream of packs with no noise between them: read in one piece, exactly those packs come out. */
  lemma {:induction false} StreamOfPacks(packs: seq<Pack>)
    requires forall p :: p in packs ==> |p.data| < 0x1_0000_0000
    ensures Packs(Drain(USB, EncodedAll(packs)).frames) == packs
    ensures Drain(USB, EncodedAll(packs)).rest == []
    decreases |packs|
  {
    hide ValidAt, End, PackAt, Drain, Decode, Encoded;
    if packs == [] {
      DrainNothing(USB, []);
    } else {
      var p, later := packs[0], EncodedAll(packs[1..]);
      PackRoundTrip([], p, later);
      var s := EncodedAll(packs);
      assert [] + Encoded(p) + later == s;
      var e := |Encoded(p)|;
      assert Find(USB, s, 0) == Some(0);
      DrainStep(USB, s, 0, e);
      DecodeIsPackAt(s, 0);
      assert s[e..] == later;
      StreamOfPacks(packs[1..]);
      assert Packs(Drain(USB, s).frames) == [p] + Packs(Drain(USB, later).frames);
    }
  }
}
