/** The check of an upgrade image before anything is written (app/ota_upgrade/chk.c). */
module ImageCheck {

  const OTA_IMG_MAGIC: nat := 0x4152544f
  const ROM_MAX: nat := 0x8000
  const LOADER_MAX: nat := 0x100000

  datatype Header = Header(magic: nat, hashSize: nat, sigSize: nat, romSize: nat, loaderSize: nat)

  datatype Partition = Partition(name: string, flashOffset: nat, length: nat, isUpgrade: bool)

  datatype Segment = Segment(imgOffset: nat, flashOffset: nat, sizeDecompress: nat)

  predicate HeaderOk(h: Header) {
    && h.magic == OTA_IMG_MAGIC && h.hashSize == 32 && h.sigSize == 256
    && h.romSize <= ROM_MAX && h.loaderSize <= LOADER_MAX
  }

  /** The segment lies wholly inside the partition. */
  predicate Holds(p: Partition, s: Segment) {
    p.flashOffset <= s.flashOffset && s.flashOffset + s.sizeDecompress <= p.flashOffset + p.length
  }

  function PartFrom(parts: seq<Partition>, s: Segment, i: nat): (r: int)
    requires i <= |parts|
    ensures r == -1 <==> forall j :: i <= j < |parts| ==> !Holds(parts[j], s)
    ensures r != -1 ==> i <= r < |parts| && Holds(parts[r], s) && forall j :: i <= j < r ==> !Holds(parts[j], s)
    decreases |parts| - i
  {
    if i == |parts| then -1 else if Holds(parts[i], s) then i else PartFrom(parts, s, i + 1)
  }

  /** The first partition that holds the segment, or -1. */
  function PartOf(parts: seq<Partition>, s: Segment): (r: int)
    ensures -1 <= r < |parts|
    ensures r != -1 ==> Holds(parts[r], s)
  {
    PartFrom(parts, s, 0)
  }

  method GetPartInfoOffset(parts: seq<Partition>, segment: Segment) returns (r: int)
    ensures r == PartOf(parts, segment)
  {
    var i := 0;
    while i < |parts|
      invariant 0 <= i <= |parts|
      invariant PartFrom(parts, segment, 0) == PartFrom(parts, segment, i)
    {
      if segment.flashOffset >= parts[i].flashOffset
         && segment.flashOffset + segment.sizeDecompress <= parts[i].flashOffset + parts[i].length {
        return i;
      }
      i := i + 1;
    }
    return -1;
  }

  /** The size of the first k segments together. */
  function SizeUpTo(segs: seq<Segment>, k: nat): nat
    requires k <= |segs|
  {
    if k == 0 then 0 else SizeUpTo(segs, k - 1) + segs[k - 1].sizeDecompress
  }

  lemma {:induction false} SizeGrows(segs: seq<Segment>, a: nat, b: nat)
    requires a <= b <= |segs|
    ensures SizeUpTo(segs, a) <= SizeUpTo(segs, b)
    decreases b - a
  {
    if a < b {
      SizeGrows(segs, a, b - 1);
    }
  }

  predicate AllPlaced(parts: seq<Partition>, segs: seq<Segment>) {
    forall k :: 0 <= k < |segs| ==> PartOf(parts, segs[k]) != -1
  }

  /** The segments from a on up to b go one after the other into the partition of the first. */
  predicate IsRun(parts: seq<Partition>, segs: seq<Segment>, a: nat, b: nat) {
    a < b <= |segs| && forall k :: a <= k < b ==> PartOf(parts, segs[k]) == PartOf(parts, segs[a])
  }

  predicate RunFits(parts: seq<Partition>, segs: seq<Segment>, a: nat, b: nat)
    requires IsRun(parts, segs, a, b)
  {
    var p := PartOf(parts, segs[a]);
    p != -1 && SizeUpTo(segs, b) - SizeUpTo(segs, a) <= parts[p].length
  }

  /** No run of segments into one partition is larger than the partition. */
  ghost predicate RunsFit(parts: seq<Partition>, segs: seq<Segment>, upTo: nat) {
    forall a: nat, b: nat :: b <= upTo && IsRun(parts, segs, a, b) ==> RunFits(parts, segs, a, b)
  }

  ghost predicate Verified(h: Header, parts: seq<Partition>, segs: seq<Segment>) {
    HeaderOk(h) && AllPlaced(parts, segs) && RunsFit(parts, segs, |segs|)
  }

  // What the check refuses.

  lemma WrongHeaderIsRefused(h: Header, parts: seq<Partition>, segs: seq<Segment>)
    requires h.magic != 0x4152544f || h.hashSize != 32 || h.sigSize != 256 || h.romSize > 0x8000 || h.loaderSize > 0x100000
    ensures !Verified(h, parts, segs)
  {
  }

  /** A segment that no partition holds whole. */
  lemma StrayIsRefused(h: Header, parts: seq<Partition>, segs: seq<Segment>, k: nat)
    requires k < |segs|
    requires forall p :: p in parts ==>
      segs[k].flashOffset < p.flashOffset || segs[k].flashOffset + segs[k].sizeDecompress > p.flashOffset + p.length
    ensures !Verified(h, parts, segs)
  {
    hide Holds;
    var p := PartOf(parts, segs[k]);
    if p != -1 {
      assert parts[p] in parts;
      HoldsIs(parts[p], segs[k]);
    }
  }

  lemma HoldsIs(p: Partition, s: Segment)
    requires Holds(p, s)
    ensures p.flashOffset <= s.flashOffset && s.flashOffset + s.sizeDecompress <= p.flashOffset + p.length
  {
  }

  /** Segments one after the other that partition p is the first to hold, and that together are larger. */
  lemma OverfullIsRefused(h: Header, parts: seq<Partition>, segs: seq<Segment>, a: nat, b: nat, p: nat)
    requires a < b <= |segs| && p < |parts|
    requires forall k :: a <= k < b ==> Holds(parts[p], segs[k]) && forall j :: 0 <= j < p ==> !Holds(parts[j], segs[k])
    requires SizeUpTo(segs, b) - SizeUpTo(segs, a) > parts[p].length
    ensures !Verified(h, parts, segs)
  {
    hide Holds;
    forall k | a <= k < b
      ensures PartOf(parts, segs[k]) == p
    {
      assert PartFrom(parts, segs[k], 0) == p;
    }
    assert IsRun(parts, segs, a, b) && !RunFits(parts, segs, a, b);
  }

  /** A longest run that fits settles every run inside it. */
  lemma RunSettles(parts: seq<Partition>, segs: seq<Segment>, s: nat, i: nat)
    requires IsRun(parts, segs, s, i) && RunFits(parts, segs, s, i) && RunsFit(parts, segs, s)
    requires s > 0 ==> PartOf(parts, segs[s - 1]) != PartOf(parts, segs[s])
    ensures RunsFit(parts, segs, i)
  {
    hide PartOf;
    forall a: nat, b: nat | b <= i && IsRun(parts, segs, a, b)
      ensures RunFits(parts, segs, a, b)
    {
      if b > s {
        assert a >= s;
        SizeGrows(segs, s, a);
        SizeGrows(segs, b, i);
      }
    }
  }

  /** do_verify_image: accepts an image just when its header is right, every segment lies in a partition
      and no run of segments is larger than its partition. */
  method DoVerifyImage(h: Header, parts: seq<Partition>, segs: seq<Segment>) returns (ret: int)
    ensures ret == 0 <==> Verified(h, parts, segs)
    ensures ret == 0 || ret == -1
  {
    hide PartOf;
    if h.magic != OTA_IMG_MAGIC || h.hashSize != 32 || h.sigSize != 256 {
      return -1;
    }
    if h.romSize != 0 && h.romSize > ROM_MAX {
      return -1;
    }
    if h.loaderSize != 0 && h.loaderSize > LOADER_MAX {
      return -1;
    }
    var index, imgSize, i := -1, 0, 0;
    ghost var s: nat := 0;
    while i < |segs|
      invariant 0 <= s <= i <= |segs| && (i > 0 ==> s < i)
      invariant forall k :: 0 <= k < i ==> PartOf(parts, segs[k]) != -1
      invariant i == 0 <==> index == -1
      invariant i > 0 ==> IsRun(parts, segs, s, i) && index == PartOf(parts, segs[s])
      invariant -1 <= index < |parts|
      invariant s > 0 ==> PartOf(parts, segs[s - 1]) != PartOf(parts, segs[s])
      invariant imgSize == SizeUpTo(segs, i) - SizeUpTo(segs, s)
      invariant RunsFit(parts, segs, s)
    {
      var indexTmp := GetPartInfoOffset(parts, segs[i]);
      if indexTmp < 0 {
        return -1;
      }
      if index == -1 {
        index := indexTmp;
      }
      if index != indexTmp {
        if imgSize > parts[index].length {
          assert !RunFits(parts, segs, s, i);
          return -1;
        }
        RunSettles(parts, segs, s, i);
        index, imgSize, s := indexTmp, 0, i;
      }
      imgSize := imgSize + segs[i].sizeDecompress;
      i := i + 1;
    }
    // Without segments the source compares a size of zero with bytes in front of the table: never greater.
    if index == -1 {
      return 0;
    }
    if imgSize > parts[index].length {
      assert !RunFits(parts, segs, s, i);
      return -1;
    }
    RunSettles(parts, segs, s, i);
    return 0;
  }
}
