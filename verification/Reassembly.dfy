/** Reading frames from a byte stream that arrives in pieces, with what is left of one piece carried
    over to the next: when the pieces cannot matter, and exactly when they can. */
module Reassembly {
  import opened Bytes
  import opened Framing

  /** Wherever a reader stands, the valid frame it would take next is also the first to be complete. */
  ghost predicate FirstEndsFirst(f: Shape, s: seq<byte>)
    requires WellShaped(f)
    decreases |s|
  {
    var o := Find(f, s, 0);
    o.Some? ==>
      && (forall p :: ValidAt(f, s, p) ==> End(f, s, o.value) <= End(f, s, p))
      && FirstEndsFirst(f, s[End(f, s, o.value)..])
  }

  /** No two valid frames overlap. */
  ghost predicate Disjoint(f: Shape, s: seq<byte>) {
    forall p, q :: ValidAt(f, s, p) && ValidAt(f, s, q) && p < q ==> End(f, s, p) <= q
  }

  /** Cutting bytes off the front or the back loses frames but never makes one. */
  lemma ValidInPart(f: Shape, s: seq<byte>, lo: nat, hi: nat, p: nat)
    requires lo <= hi <= |s| && ValidAt(f, s[lo..hi], p)
    ensures ValidAt(f, s, lo + p) && End(f, s, lo + p) == lo + End(f, s[lo..hi], p)
  {
    var e := End(f, s[lo..hi], p);
    SliceOfSlice(s, lo, hi, p, e);
    ValidIsLocal(f, s[lo..hi], p, s, lo + p);
  }

  lemma ValidInWhole(f: Shape, s: seq<byte>, lo: nat, hi: nat, p: nat)
    requires lo <= hi <= |s| && lo <= p && ValidAt(f, s, p) && End(f, s, p) <= hi
    ensures ValidAt(f, s[lo..hi], p - lo) && End(f, s[lo..hi], p - lo) == End(f, s, p) - lo
  {
    SliceOfSlice(s, lo, hi, p - lo, End(f, s, p) - lo);
    ValidIsLocal(f, s, p, s[lo..hi], p - lo);
  }

  lemma {:induction false} DisjointEndsFirst(f: Shape, s: seq<byte>)
    requires WellShaped(f) && Disjoint(f, s)
    ensures FirstEndsFirst(f, s)
    decreases |s|
  {
    hide ValidAt, End, Find;
    var o := Find(f, s, 0);
    if o.Some? {
      var e := End(f, s, o.value);
      assert s[e..] == s[e..|s|];
      forall p, q | ValidAt(f, s[e..], p) && ValidAt(f, s[e..], q) && p < q
        ensures End(f, s[e..], p) <= q
      {
        ValidInPart(f, s, e, |s|, p);
        ValidInPart(f, s, e, |s|, q);
      }
      DisjointEndsFirst(f, s[e..]);
    }
  }

  /** While no frame is complete in a, the first frame of a + b is the same one as that of a. */
  lemma FirstFrameStays(f: Shape, a: seq<byte>, b: seq<byte>)
    requires WellShaped(f) && FirstEndsFirst(f, a + b) && Find(f, a, 0).Some?
    ensures Find(f, a + b, 0) == Find(f, a, 0)
    ensures End(f, a + b, Find(f, a, 0).value) == End(f, a, Find(f, a, 0).value)
  {
    hide ValidAt, End, Find;
    var o, s := Find(f, a, 0).value, a + b;
    assert s[0..|a|] == a;
    ValidInPart(f, s, 0, |a|, o);
    var q := Find(f, s, 0).value;
    assert End(f, s, q) <= End(f, s, o);
    ValidInWhole(f, s, 0, |a|, q);
  }

  /** What one round of draining does. */
  lemma DrainStep(f: Shape, s: seq<byte>, o: nat, e: nat)
    requires WellShaped(f) && Find(f, s, 0) == Some(o) && e == End(f, s, o)
    ensures Drain(f, s) == Taken([s[o..e]] + Drain(f, s[e..]).frames, Drain(f, s[e..]).rest)
  {
    hide ValidAt, End, Find;
  }

  lemma DrainNothing(f: Shape, s: seq<byte>)
    requires WellShaped(f) && Find(f, s, 0).None?
    ensures Drain(f, s) == Taken([], s)
  {
  }

  /** Draining a and then the rest with b appended takes the same frames as draining a + b. */
  lemma {:induction false} DrainTwice(f: Shape, a: seq<byte>, b: seq<byte>)
    requires WellShaped(f) && FirstEndsFirst(f, a + b)
    ensures var t := Drain(f, a); var u := Drain(f, t.rest + b);
      && Drain(f, a + b) == Taken(t.frames + u.frames, u.rest)
      && FirstEndsFirst(f, t.rest + b)
    decreases |a|
  {
    hide ValidAt, End, Find, Drain;
    var o := Find(f, a, 0);
    if o.Some? {
      FirstFrameStays(f, a, b);
      var e := End(f, a, o.value);
      DrainStep(f, a, o.value, e);
      DrainStep(f, a + b, o.value, e);
      assert (a + b)[e..] == a[e..] + b;
      assert (a + b)[o.value..e] == a[o.value..e];
      DrainTwice(f, a[e..], b);
      assert Drain(f, a + b).frames == [a[o.value..e]] + Drain(f, a[e..] + b).frames;
    } else {
      assert Drain(f, a) == Taken([], a) by { DrainNothing(f, a); }
    }
  }

  /** The reader: each piece is appended to what was carried over, then drained. */
  function Feed(f: Shape, save: seq<byte>, pieces: seq<seq<byte>>): Taken
    requires WellShaped(f)
    decreases |pieces|
  {
    if pieces == [] then Taken([], save)
    else
      var t := Drain(f, save + pieces[0]);
      var u := Feed(f, t.rest, pieces[1..]);
      Taken(t.frames + u.frames, u.rest)
  }

  /** However the stream is cut, the reader takes the frames of the whole stream. */
  lemma {:induction false} FeedIsDrain(f: Shape, save: seq<byte>, pieces: seq<seq<byte>>)
    requires WellShaped(f) && FirstEndsFirst(f, save + Flatten(pieces)) && Find(f, save, 0).None?
    ensures Feed(f, save, pieces) == Drain(f, save + Flatten(pieces))
    decreases |pieces|
  {
    hide ValidAt, End, Find;
    if pieces == [] {
      assert save + Flatten(pieces) == save;
    } else {
      var a, b := save + pieces[0], Flatten(pieces[1..]);
      assert save + Flatten(pieces) == a + b;
      DrainTwice(f, a, b);
      FeedIsDrain(f, Drain(f, a).rest, pieces[1..]);
    }
  }

  /** A cut at which the reader takes something else than from the whole stream. */
  lemma {:induction false} OvertakenCut(f: Shape, s: seq<byte>) returns (cut: nat)
    requires WellShaped(f) && !FirstEndsFirst(f, s)
    ensures cut <= |s| && Feed(f, [], [s[..cut], s[cut..]]).frames != Drain(f, s).frames
    decreases |s|
  {
    hide ValidAt, End, Find;
    var o := Find(f, s, 0).value;
    var e := End(f, s, o);
    if p :| ValidAt(f, s, p) && End(f, s, p) < e {
      cut := End(f, s, p);
      OtherFrameFirst(f, s, p);
    } else {
      var cut' := OvertakenCut(f, s[e..]);
      cut := e + cut';
      SameFrameFirst(f, s, cut');
    }
  }

  lemma FeedTwo(f: Shape, a: seq<byte>, b: seq<byte>)
    requires WellShaped(f)
    ensures Feed(f, [], [a, b]).frames == Drain(f, a).frames + Drain(f, Drain(f, a).rest + b).frames
  {
    hide ValidAt, End, Find;
    assert [] + a == a;
    assert [a, b][1..] == [b] && [b][1..] == [];
    var t := Drain(f, a);
    var u := Drain(f, t.rest + b);
    assert Feed(f, t.rest, [b]).frames == u.frames + [];
  }

  /** Cut where an overtaking frame ends, the first frame taken is a shorter one. */
  lemma OtherFrameFirst(f: Shape, s: seq<byte>, p: nat)
    requires WellShaped(f) && Find(f, s, 0).Some? && ValidAt(f, s, p)
    requires End(f, s, p) < End(f, s, Find(f, s, 0).value)
    ensures var cut := End(f, s, p);
      Feed(f, [], [s[..cut], s[cut..]]).frames != Drain(f, s).frames
  {
    hide ValidAt, End, Find, Drain;
    var o, cut := Find(f, s, 0).value, End(f, s, p);
    var e, a := End(f, s, o), s[..cut];
    assert s[0..cut] == a;
    ValidInWhole(f, s, 0, cut, p);
    var q := Find(f, a, 0).value;
    ValidInPart(f, s, 0, cut, q);
    FeedTwo(f, a, s[cut..]);
    DrainStep(f, s, o, e);
    DrainStep(f, a, q, End(f, a, q));
    assert Drain(f, s).frames[0] == s[o..e];
    assert Feed(f, [], [a, s[cut..]]).frames[0] == a[q..End(f, a, q)];
  }

  /** Cut after the first frame, both readers take that frame and continue on the remainder. */
  lemma SameFrameFirst(f: Shape, s: seq<byte>, cut': nat)
    requires WellShaped(f) && Find(f, s, 0).Some?
    requires forall p :: ValidAt(f, s, p) ==> End(f, s, Find(f, s, 0).value) <= End(f, s, p)
    requires var rest := s[End(f, s, Find(f, s, 0).value)..];
      cut' <= |rest| && Feed(f, [], [rest[..cut'], rest[cut'..]]).frames != Drain(f, rest).frames
    ensures var cut := End(f, s, Find(f, s, 0).value) + cut';
      Feed(f, [], [s[..cut], s[cut..]]).frames != Drain(f, s).frames
  {
    hide ValidAt, End, Find, Drain;
    var o := Find(f, s, 0).value;
    var e := End(f, s, o);
    var rest, cut := s[e..], e + cut';
    var a := s[..cut];
    assert s[0..cut] == a;
    ValidInWhole(f, s, 0, cut, o);
    var q := Find(f, a, 0).value;
    ValidInPart(f, s, 0, cut, q);
    assert q == o;
    assert a[e..] == rest[..cut'];
    assert s[cut..] == rest[cut'..];
    FeedTwo(f, a, s[cut..]);
    FeedTwo(f, rest[..cut'], rest[cut'..]);
    var t := Drain(f, rest[..cut']);
    var later := t.frames + Drain(f, t.rest + s[cut..]).frames;
    DrainStep(f, s, o, e);
    DrainStep(f, a, o, e);
    assert Feed(f, [], [a, s[cut..]]).frames[1..] == later;
    assert Drain(f, s).frames[1..] == Drain(f, rest).frames;
  }

  /** Every way of cutting the stream yields the frames of the whole stream exactly when no valid
      frame is overtaken by one that starts later but is complete sooner. */
  lemma CuttingNeverMattersIff(f: Shape, s: seq<byte>)
    requires WellShaped(f)
    ensures (forall pieces: seq<seq<byte>> :: Flatten(pieces) == s ==> Feed(f, [], pieces).frames == Drain(f, s).frames)
            <==> FirstEndsFirst(f, s)
  {
    hide ValidAt, End;
    if FirstEndsFirst(f, s) {
      forall pieces: seq<seq<byte>> | Flatten(pieces) == s
        ensures Feed(f, [], pieces).frames == Drain(f, s).frames
      {
        assert [] + Flatten(pieces) == s;
        FeedIsDrain(f, [], pieces);
      }
    } else {
      var cut := OvertakenCut(f, s);
      var pieces: seq<seq<byte>> := [s[..cut], s[cut..]];
      assert pieces[1..] == [s[cut..]] && pieces[1..][1..] == [];
      assert Flatten(pieces[1..]) == s[cut..] + Flatten(pieces[1..][1..]) == s[cut..];
      assert Flatten(pieces) == s;
    }
  }
}
