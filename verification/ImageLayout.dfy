/** Which bytes of an image file end up in which partition (app/ota_upgrade/ota_upgrade.c): for an image put
    together from the contents of its partitions, each application gets its own. */
module ImageLayout {
  import opened FlashSpec
  import opened ImageCheck
  import opened AbUpgrade

  /** A partition and what it is to hold, if it is to be upgraded. */
  datatype Content = Content(part: Partition, bytes: seq<bv8>)

  function Parts(cs: seq<Content>): (ps: seq<Partition>)
    ensures |ps| == |cs|
  {
    seq(|cs|, i requires 0 <= i < |cs| => cs[i].part)
  }

  /** The contents of the partitions to be upgraded, one after the other. */
  function FileOf(cs: seq<Content>): seq<bv8>
    decreases |cs|
  {
    if cs == [] then []
    else
      var last, front := cs[|cs| - 1], FileOf(cs[..|cs| - 1]);
      if last.part.isUpgrade then front + last.bytes else front
  }

  /** For each of them a segment: where in the file it is, where it goes, and how long it is. */
  function SegmentsOf(cs: seq<Content>): seq<Segment>
    decreases |cs|
  {
    if cs == [] then []
    else
      var last, front := cs[|cs| - 1], cs[..|cs| - 1];
      if last.part.isUpgrade then
        SegmentsOf(front) + [Segment(|FileOf(front)|, last.part.flashOffset, |last.bytes|)]
      else SegmentsOf(front)
  }

  function Assembled(hdr: Header, romcode: seq<bv8>, gpt: seq<bv8>, cs: seq<Content>): Image {
    Image(hdr, romcode, gpt, Parts(cs), SegmentsOf(cs), FileOf(cs))
  }

  lemma {:induction false} MarkedPrefix(ps: seq<Partition>, k: nat, n: nat)
    requires k <= n <= |ps|
    ensures Marked(ps[..n], k) == Marked(ps, k)
    decreases k
  {
    if k > 0 {
      MarkedPrefix(ps, k - 1, n);
    }
  }

  /** One segment for every partition to be upgraded, and all of its bytes are in the file. */
  lemma {:induction false} SegmentsFit(cs: seq<Content>)
    ensures |SegmentsOf(cs)| == Marked(Parts(cs), |cs|)
    ensures forall s :: s in SegmentsOf(cs) ==> s.imgOffset + s.sizeDecompress <= |FileOf(cs)|
    decreases |cs|
  {
    if cs != [] {
      var n := |cs| - 1;
      SegmentsFit(cs[..n]);
      assert Parts(cs)[..n] == Parts(cs[..n]);
      MarkedPrefix(Parts(cs), n, n);
    }
  }

  /** What comes later in the image moves nothing that is there. */
  lemma {:induction false} Prefixes(cs: seq<Content>, k: nat)
    requires k <= |cs|
    ensures SegmentsOf(cs[..k]) <= SegmentsOf(cs) && FileOf(cs[..k]) <= FileOf(cs)
    decreases |cs|
  {
    if k < |cs| {
      var n := |cs| - 1;
      Prefixes(cs[..n], k);
      assert cs[..n][..k] == cs[..k];
    } else {
      assert cs[..k] == cs;
    }
  }

  /** The segment of the i-th partition, and its bytes. */
  lemma SegmentOf(cs: seq<Content>, i: nat)
    requires i < |cs| && cs[i].part.isUpgrade
    ensures var n := Marked(Parts(cs), i);
      && Marked(Parts(cs), i + 1) == n + 1 <= |SegmentsOf(cs)|
      && var s := SegmentsOf(cs)[n];
      && s.flashOffset == cs[i].part.flashOffset && s.sizeDecompress == |cs[i].bytes|
      && s.imgOffset + s.sizeDecompress <= |FileOf(cs)|
      && FileOf(cs)[s.imgOffset..s.imgOffset + s.sizeDecompress] == cs[i].bytes
  {
    hide SegmentsOf, FileOf, Marked;
    var front, upTo := cs[..i], cs[..i + 1];
    assert upTo[..i] == front && upTo[i] == cs[i];
    MarkedBefore(cs, i);
    Prefixes(cs, i + 1);
    LastSegment(upTo);
    SliceOfPrefix(FileOf(cs), FileOf(upTo), FileOf(front), cs[i].bytes);
  }

  lemma MarkedBefore(cs: seq<Content>, i: nat)
    requires i < |cs|
    ensures Marked(Parts(cs), i) == |SegmentsOf(cs[..i])|
    ensures Marked(Parts(cs), i + 1) == Marked(Parts(cs), i) + if cs[i].part.isUpgrade then 1 else 0
  {
    hide SegmentsOf, FileOf;
    SegmentsFit(cs[..i]);
    assert Parts(cs)[..i] == Parts(cs[..i]);
    MarkedPrefix(Parts(cs), i, i);
  }

  lemma SliceOfPrefix(file: seq<bv8>, prefix: seq<bv8>, front: seq<bv8>, bytes: seq<bv8>)
    requires prefix <= file && prefix == front + bytes
    ensures |front| + |bytes| <= |file| && file[|front|..|front| + |bytes|] == bytes
  {
    assert file[|front|..|front| + |bytes|] == prefix[|front|..];
  }

  lemma LastSegment(cs: seq<Content>)
    requires cs != [] && cs[|cs| - 1].part.isUpgrade
    ensures var last, front := cs[|cs| - 1], cs[..|cs| - 1];
      && FileOf(cs) == FileOf(front) + last.bytes
      && SegmentsOf(cs) == SegmentsOf(front) + [Segment(|FileOf(front)|, last.part.flashOffset, |last.bytes|)]
  {
  }

  predicate AddressesFit(cs: seq<Content>) {
    forall c :: c in cs ==> c.part.flashOffset + GPT_FLASH_OFFSET <= UINT32_MAX && |c.bytes| <= UINT32_MAX
  }

  lemma AssembledIsWhole(hdr: Header, romcode: seq<bv8>, gpt: seq<bv8>, cs: seq<Content>)
    requires |romcode| == hdr.romSize && |gpt| == GPT_FLASH_SIZE
    ensures Whole(Assembled(hdr, romcode, gpt, cs))
  {
    SegmentsFit(cs);
  }

  /** Each named partition that is to be upgraded is written with exactly its own contents, at its own place;
      one that is not to be upgraded is left. */
  lemma EachGetsItsOwn(hdr: Header, romcode: seq<bv8>, gpt: seq<bv8>, cs: seq<Content>, name: string, i: nat)
    requires |romcode| == hdr.romSize && |gpt| == GPT_FLASH_SIZE && AddressesFit(cs) && IsFirst(Parts(cs), name, i)
    ensures var img := Assembled(hdr, romcode, gpt, cs);
      && Whole(img)
      && TargetOf(img, name) ==
           if cs[i].part.isUpgrade then Place(cs[i].part.flashOffset + 0x8000, cs[i].bytes) else Unmarked
  {
    AssembledIsWhole(hdr, romcode, gpt, cs);
    FoundFirst(Parts(cs), name, i, 0);
    assert cs[i] in cs;
    if cs[i].part.isUpgrade {
      SegmentOf(cs, i);
    }
    hide Whole, Marked, SegmentsOf, FileOf;
  }

  /** So a slot that is renewed, as both are after a whole upgrade, holds its application's own contents. */
  lemma RenewedHoldsItsOwn(f: Flash, hdr: Header, romcode: seq<bv8>, gpt: seq<bv8>, cs: seq<Content>, slot: nat, i: nat)
    requires |romcode| == hdr.romSize && |gpt| == GPT_FLASH_SIZE && AddressesFit(cs)
    requires slot < 2 && IsFirst(Parts(cs), if slot == 0 then "app0" else "app1", i)
    requires Whole(Assembled(hdr, romcode, gpt, cs)) && Renewed(f, Assembled(hdr, romcode, gpt, cs), slot)
    ensures cs[i].part.isUpgrade
    ensures var at := cs[i].part.flashOffset + 0x8000;
      at + |cs[i].bytes| <= |f| && f[at..at + |cs[i].bytes|] == cs[i].bytes
    ensures var at := |romcode| + slot * 0x1000; at + 0x1000 <= |f| && f[at..at + 0x1000] == gpt
  {
    EachGetsItsOwn(hdr, romcode, gpt, cs, AppName(slot), i);
    hide Whole, SegmentsOf, FileOf, TargetOf;
  }
}
