/** The order in which app/ota_upgrade/ota_upgrade.c writes the two copies of the partition table (GPT)
    and the two copies of the application, so that one copy of both can always be started. */
module AbUpgrade {
  import opened FlashSpec
  import opened ImageCheck
  import opened OtaLog
  import Ota

  const GPT_FLASH_OFFSET: nat := 0x8000
  const GPT_FLASH_SIZE: nat := 0x1000
  const UINT32_MAX: nat := 0xFFFF_FFFF

  datatype Image = Image(
    hdr: Header, romcode: seq<bv8>, gpt: seq<bv8>, parts: seq<Partition>, segs: seq<Segment>, file: seq<bv8>)

  /** The first partition from i on with that name, or -1. */
  function NameFrom(parts: seq<Partition>, name: string, i: nat): (r: int)
    requires i <= |parts|
    ensures r == -1 || (i <= r < |parts| && parts[r].name == name)
    decreases |parts| - i
  {
    if i == |parts| then -1 else if parts[i].name == name then i else NameFrom(parts, name, i + 1)
  }

  /** How many of the first k partitions are to be upgraded. */
  function Marked(parts: seq<Partition>, k: nat): nat
    requires k <= |parts|
  {
    if k == 0 then 0 else Marked(parts, k - 1) + if parts[k - 1].isUpgrade then 1 else 0
  }

  lemma {:induction false} MarkedGrows(parts: seq<Partition>, a: nat, b: nat)
    requires a <= b <= |parts|
    ensures Marked(parts, a) <= Marked(parts, b)
    decreases b - a
  {
    if a < b {
      MarkedGrows(parts, a, b - 1);
    }
  }

  /** Every partition to be upgraded has a segment, and every segment's data is in the file. */
  predicate Whole(img: Image) {
    && |img.romcode| == img.hdr.romSize && |img.gpt| == GPT_FLASH_SIZE
    && Marked(img.parts, |img.parts|) <= |img.segs|
    && forall s :: s in img.segs ==> s.imgOffset + s.sizeDecompress <= |img.file|
  }

  datatype Target = Missing | Unmarked | Mismatch | TooLarge | Place(addr: nat, data: seq<bv8>)

  /** Where the named partition's new contents go: the n-th partition to be upgraded gets the n-th
      segment, which must start where the partition starts. */
  function TargetOf(img: Image, name: string): Target
    requires Whole(img)
  {
    var i := NameFrom(img.parts, name, 0);
    if i == -1 then Missing
    else if !img.parts[i].isUpgrade then Unmarked
    else
      MarkedGrows(img.parts, i + 1, |img.parts|);
      var s := img.segs[Marked(img.parts, i + 1) - 1];
      if s.flashOffset != img.parts[i].flashOffset then Mismatch
      else if s.flashOffset + GPT_FLASH_OFFSET > UINT32_MAX || s.sizeDecompress > UINT32_MAX then TooLarge
      else Place(s.flashOffset + GPT_FLASH_OFFSET, img.file[s.imgOffset..s.imgOffset + s.sizeDecompress])
  }

  predicate IsFirst(parts: seq<Partition>, name: string, i: nat) {
    i < |parts| && parts[i].name == name && forall j :: 0 <= j < i ==> parts[j].name != name
  }

  lemma {:induction false} FirstIs(parts: seq<Partition>, name: string, k: nat)
    requires k <= |parts|
    ensures var i := NameFrom(parts, name, k);
      if i == -1 then forall j :: k <= j < |parts| ==> parts[j].name != name
      else forall j :: k <= j < i ==> parts[j].name != name
    decreases |parts| - k
  {
    if k < |parts| {
      FirstIs(parts, name, k + 1);
    }
  }

  lemma MissingIff(img: Image, name: string)
    requires Whole(img)
    ensures TargetOf(img, name).Missing? <==> forall p :: p in img.parts ==> p.name != name
  {
    hide Whole, Marked;
    FirstIs(img.parts, name, 0);
    var i := NameFrom(img.parts, name, 0);
    assert i != -1 ==> img.parts[i] in img.parts;
  }

  /** The first partition of that name, the i-th, with n partitions to be upgraded before it: left if it is not
      to be upgraded itself; refused if the n-th segment is for another place; otherwise it gets the bytes
      that this segment names. */
  lemma OutcomeOfFirst(img: Image, name: string, i: nat, n: nat)
    requires Whole(img) && IsFirst(img.parts, name, i) && n == Marked(img.parts, i)
    ensures TargetOf(img, name).Unmarked? <==> !img.parts[i].isUpgrade
    ensures img.parts[i].isUpgrade ==>
      && n < |img.segs|
      && var t, s := TargetOf(img, name), img.segs[n];
      && (t.Mismatch? <==> s.flashOffset != img.parts[i].flashOffset)
      && (t.TooLarge? ==> img.parts[i].flashOffset + 0x8000 > 0xFFFF_FFFF || s.sizeDecompress > 0xFFFF_FFFF)
      && s.imgOffset + s.sizeDecompress <= |img.file|
      && (t.Place? ==> t == Place(img.parts[i].flashOffset + 0x8000, img.file[s.imgOffset..s.imgOffset + s.sizeDecompress]))
  {
    FirstIs(img.parts, name, 0);
    assert NameFrom(img.parts, name, 0) == i by { FoundFirst(img.parts, name, i, 0); }
    MarkedGrows(img.parts, i + 1, |img.parts|);
    assert Marked(img.parts, i + 1) == n + if img.parts[i].isUpgrade then 1 else 0;
    hide NameFrom, Marked;
  }

  lemma {:induction false} FoundFirst(parts: seq<Partition>, name: string, i: nat, k: nat)
    requires IsFirst(parts, name, i) && k <= i
    ensures NameFrom(parts, name, k) == i
    decreases i - k
  {
    if k < i {
      FoundFirst(parts, name, i, k + 1);
    }
  }

  function AppName(slot: nat): string {
    if slot == 0 then "app0" else "app1"
  }

  function GptAt(img: Image, slot: nat): nat {
    img.hdr.romSize + if slot == 0 then 0 else GPT_FLASH_SIZE
  }

  /** Byte k of the flash belongs to the named partition. */
  predicate InPartition(img: Image, name: string, k: int) {
    var i := NameFrom(img.parts, name, 0);
    && i != -1
    && var p := img.parts[i];
    p.flashOffset + GPT_FLASH_OFFSET <= k < p.flashOffset + GPT_FLASH_OFFSET + p.length
  }

  /** Byte k belongs to the GPT copy or the application of that slot. */
  predicate InSlot(img: Image, slot: nat, k: int) {
    GptAt(img, slot) <= k < GptAt(img, slot) + GPT_FLASH_SIZE || InPartition(img, AppName(slot), k)
  }

  predicate Apart(p: Partition, q: Partition) {
    p.flashOffset + p.length <= q.flashOffset || q.flashOffset + q.length <= p.flashOffset
  }

  /** An image that passed the check, with partitions that overlap neither each other nor the GPT copies. */
  ghost predicate Sound(img: Image) {
    && Whole(img)
    && Verified(img.hdr, img.parts, img.segs)
    && (forall i, j :: 0 <= i < j < |img.parts| ==> Apart(img.parts[i], img.parts[j]))
    && (forall p :: p in img.parts ==> img.hdr.romSize + 2 * GPT_FLASH_SIZE <= p.flashOffset + GPT_FLASH_OFFSET)
  }

  predicate FlashFits(img: Image, f: Flash) {
    && img.hdr.romSize + 2 * GPT_FLASH_SIZE <= |f|
    && forall p :: p in img.parts ==> p.flashOffset + GPT_FLASH_OFFSET + p.length <= |f|
  }

  /** A segment that starts at its partition's start is held by that partition and no other. */
  lemma HeldByItsOwn(img: Image, i: nat, s: Segment)
    requires Sound(img) && i < |img.parts| && s in img.segs && s.sizeDecompress > 0
    requires s.flashOffset == img.parts[i].flashOffset && img.parts[i].length > 0
    ensures Holds(img.parts[i], s)
  {
    var k :| 0 <= k < |img.segs| && img.segs[k] == s;
    var j := PartOf(img.parts, img.segs[k]);
    hide PartOf, Whole;
    assert img.parts[i] in img.parts;
    assert Apart(img.parts[i], img.parts[j]) || Apart(img.parts[j], img.parts[i]) || i == j;
  }

  predicate NotEmpty(img: Image, name: string) {
    var i := NameFrom(img.parts, name, 0);
    i != -1 ==> img.parts[i].length > 0
  }

  /** What is written to a named partition stays inside it, unless the partition is empty: an empty one
      that starts where another starts takes in a segment that the check found in the other. */
  lemma StaysInsideIff(img: Image, name: string)
    requires Sound(img) && TargetOf(img, name).Place?
    ensures var t := TargetOf(img, name);
      (forall k :: t.addr <= k < t.addr + |t.data| ==> InPartition(img, name, k))
      <==> t.data == [] || NotEmpty(img, name)
  {
    hide Verified;
    var i := NameFrom(img.parts, name, 0);
    MarkedGrows(img.parts, i + 1, |img.parts|);
    var s := img.segs[Marked(img.parts, i + 1) - 1];
    var t := TargetOf(img, name);
    if s.sizeDecompress > 0 {
      assert t.addr <= t.addr < t.addr + |t.data|;
      if img.parts[i].length > 0 {
        HeldByItsOwn(img, i, s);
      } else {
        assert !InPartition(img, name, t.addr);
      }
    }
  }

  const EMPTY_APP0: Image := Image(
    Header(OTA_IMG_MAGIC, 32, 256, 0, 0), [], seq(GPT_FLASH_SIZE, _ => 0),
    [Partition("app0", 0, 0, true), Partition("data", 0, 16, false)], [Segment(0, 0, 4)], [1, 2, 3, 4])

  /** Such an image: it passes the check, and its app0 is written over the partition that starts at the
      same place. */
  lemma EmptyPartitionOverwrites()
    ensures Sound(EMPTY_APP0) && !NotEmpty(EMPTY_APP0, "app0")
    ensures TargetOf(EMPTY_APP0, "app0") == Place(0x8000, [1, 2, 3, 4])
    ensures forall k :: 0x8000 <= k < 0x8004 ==> InPartition(EMPTY_APP0, "data", k)
  {
    var img := EMPTY_APP0;
    var parts, seg := img.parts, img.segs[0];
    assert Marked(parts, 0) == 0 && Marked(parts, 1) == 1 && Marked(parts, 2) == 1;
    assert PartFrom(parts, seg, 1) == 1 && PartFrom(parts, seg, 0) == 1;
    forall a: nat, b: nat | b <= 1 && IsRun(parts, img.segs, a, b)
      ensures RunFits(parts, img.segs, a, b)
    {
      assert a == 0 && b == 1 && SizeUpTo(img.segs, 0) == 0 && SizeUpTo(img.segs, 1) == 4;
    }
    assert NameFrom(parts, "app0", 0) == 0;
    assert "app0"[0] != "data"[0];
    assert NameFrom(parts, "data", 1) == 1 && NameFrom(parts, "data", 0) == 1;
    assert img.file[0..4] == [1, 2, 3, 4];
  }

  /** Nothing belongs to both slots, nor to a slot and the boot ROM's code. */
  lemma SlotsApart(img: Image, k: int)
    requires Sound(img)
    ensures !(InSlot(img, 0, k) && InSlot(img, 1, k))
    ensures k < img.hdr.romSize ==> !InSlot(img, 0, k) && !InSlot(img, 1, k)
  {
    hide Whole, Verified;
    var i, j := NameFrom(img.parts, "app0", 0), NameFrom(img.parts, "app1", 0);
    assert i != -1 ==> img.parts[i] in img.parts && img.parts[i].name[3] == '0';
    assert j != -1 ==> img.parts[j] in img.parts && img.parts[j].name[3] == '1';
    if i != -1 && j != -1 {
      assert Apart(img.parts[i], img.parts[j]) || Apart(img.parts[j], img.parts[i]);
    }
  }

  // The state of the two slots while the flash is written.

  /** Nothing outside that slot differs. */
  ghost predicate Within(f0: Flash, f: Flash, img: Image, slot: nat) {
    |f| == |f0| && forall k :: 0 <= k < |f| && f[k] != f0[k] ==> InSlot(img, slot, k)
  }

  ghost predicate AllWithin(f0: Flash, h: seq<Flash>, f: Flash, trail: seq<Flash>, img: Image, slot: nat) {
    && Within(f0, f, img, slot)
    && h <= trail
    && forall k :: |h| <= k < |trail| ==> Within(f0, trail[k], img, slot)
  }

  /** The slot is as it was. */
  ghost predicate Untouched(f0: Flash, f: Flash, img: Image, slot: nat) {
    |f| == |f0| && forall k :: 0 <= k < |f| && InSlot(img, slot, k) ==> f[k] == f0[k]
  }

  predicate Has(f: Flash, at: nat, d: seq<bv8>) {
    at + |d| <= |f| && f[at..at + |d|] == d
  }

  predicate GptNew(f: Flash, img: Image, slot: nat) {
    Has(f, GptAt(img, slot), img.gpt)
  }

  /** The slot's GPT copy and its application are the image's. */
  predicate Renewed(f: Flash, img: Image, slot: nat)
    requires Whole(img)
  {
    && GptNew(f, img, slot)
    && var t := TargetOf(img, AppName(slot));
    t.Place? && Has(f, t.addr, t.data)
  }

  lemma WritesWithin(f0: Flash, h: seq<Flash>, f: Flash, h': seq<Flash>, at: nat, d: seq<bv8>, img: Image, slot: nat)
    requires Only(f0, h, f, h', at, d)
    requires forall k :: at <= k < at + |d| ==> InSlot(img, slot, k)
    ensures AllWithin(f0, h, f, h', img, slot)
  {
    hide InSlot;
  }

  lemma WithinChains(a: Flash, h: seq<Flash>, b: Flash, h': seq<Flash>, c: Flash, h'': seq<Flash>, img: Image, slot: nat)
    requires AllWithin(a, h, b, h', img, slot) && AllWithin(b, h', c, h'', img, slot)
    ensures AllWithin(a, h, c, h'', img, slot)
  {
    hide InSlot;
    forall k | |h| <= k < |h''|
      ensures Within(a, h''[k], img, slot)
    {
      if k < |h'| {
        assert h''[k] == h'[k];
      }
    }
  }

  /** The new data is there afterwards, and the slot's GPT copy is still what it was. */
  lemma WrittenThere(f0: Flash, f: Flash, at: nat, d: seq<bv8>)
    requires Fits(f0, at, d) && f == Overwritten(f0, at, d)
    ensures Has(f, at, d)
  {
  }

  lemma GptStays(img: Image, slot: nat, f0: Flash, f: Flash)
    requires Sound(img) && NotEmpty(img, AppName(slot)) && TargetOf(img, AppName(slot)).Place?
    requires Has(f0, GptAt(img, slot), img.gpt)
    requires var t := TargetOf(img, AppName(slot)); Fits(f0, t.addr, t.data) && f == Overwritten(f0, t.addr, t.data)
    ensures Has(f, GptAt(img, slot), img.gpt)
  {
    hide Verified;
    var t := TargetOf(img, AppName(slot));
    var i := NameFrom(img.parts, AppName(slot), 0);
    assert img.parts[i] in img.parts;
    assert t.addr >= GptAt(img, slot) + GPT_FLASH_SIZE;
  }

  /** Writing one slot leaves the other and what the other has got. */
  lemma OtherSlotStays(f0: Flash, f: Flash, img: Image, slot: nat, other: nat)
    requires Sound(img) && slot < 2 && other == 1 - slot && Within(f0, f, img, slot)
    ensures Untouched(f0, f, img, other)
  {
    forall k | 0 <= k < |f| && InSlot(img, other, k)
      ensures f[k] == f0[k]
    {
      SlotsApart(img, k);
    }
  }

  lemma HasStays(f0: Flash, f: Flash, at: nat, d: seq<bv8>)
    requires Has(f0, at, d) && |f| == |f0| && forall k :: at <= k < at + |d| ==> f[k] == f0[k]
    ensures Has(f, at, d)
  {
    forall k | 0 <= k < |d|
      ensures f[at + k] == d[k]
    {
      assert f0[at..at + |d|][k] == d[k];
    }
  }

  lemma RenewedStays(f0: Flash, f: Flash, img: Image, slot: nat)
    requires Sound(img) && NotEmpty(img, AppName(slot))
    requires Renewed(f0, img, slot) && Untouched(f0, f, img, slot)
    ensures Renewed(f, img, slot)
  {
    assert |img.gpt| == GPT_FLASH_SIZE;
    hide Verified, Whole;
    var t := TargetOf(img, AppName(slot));
    StaysInsideIff(img, AppName(slot));
    hide InPartition, Holds;
    HasStays(f0, f, GptAt(img, slot), img.gpt);
    HasStays(f0, f, t.addr, t.data);
  }

  /** The partition starts with the segment's bytes of the file. */
  predicate Holding(f: Flash, p: Partition, s: Segment, file: seq<bv8>) {
    && s.imgOffset + s.sizeDecompress <= |file|
    && p.flashOffset + 0x8000 + s.sizeDecompress <= |f|
    && f[p.flashOffset + 0x8000..p.flashOffset + 0x8000 + s.sizeDecompress]
         == file[s.imgOffset..s.imgOffset + s.sizeDecompress]
  }

  /** The first partition of that name, if it is to be upgraded, with n others before it, holds the n-th segment's
      bytes. */
  ghost predicate FirstHolds(f: Flash, img: Image, name: string) {
    forall i: nat :: IsFirst(img.parts, name, i) && img.parts[i].isUpgrade ==>
      Marked(img.parts, i) < |img.segs| && Holding(f, img.parts[i], img.segs[Marked(img.parts, i)], img.file)
  }

  lemma UnmarkedHolds(f: Flash, img: Image, name: string, i: nat)
    requires IsFirst(img.parts, name, i) && !img.parts[i].isUpgrade
    ensures FirstHolds(f, img, name)
  {
  }

  lemma OverwrittenHolds(f: Flash, img: Image, name: string, i: nat, s: Segment)
    requires IsFirst(img.parts, name, i) && Marked(img.parts, i) < |img.segs| && s == img.segs[Marked(img.parts, i)]
    requires s.imgOffset + s.sizeDecompress <= |img.file| && s.flashOffset == img.parts[i].flashOffset
    requires Fits(f, s.flashOffset + 0x8000, img.file[s.imgOffset..s.imgOffset + s.sizeDecompress])
    ensures FirstHolds(
      Overwritten(f, s.flashOffset + 0x8000, img.file[s.imgOffset..s.imgOffset + s.sizeDecompress]), img, name)
  {
    hide Marked;
  }

  /** The search of ar8030_upgrade_partition_byname: the partition, and how many marked ones stand before and
      at its place, less one. */
  method FindPart(parts: seq<Partition>, name: string) returns (i: nat, segmentIdx: int)
    ensures i <= |parts| && (i < |parts| ==> IsFirst(parts, name, i) && segmentIdx == Marked(parts, i + 1) - 1)
    ensures NameFrom(parts, name, 0) == if i < |parts| then i else -1
  {
    segmentIdx, i := -1, 0;
    while i < |parts|
      invariant 0 <= i <= |parts|
      invariant segmentIdx == Marked(parts, i) - 1
      invariant NameFrom(parts, name, 0) == NameFrom(parts, name, i)
      invariant forall j :: 0 <= j < i ==> parts[j].name != name
    {
      if parts[i].isUpgrade {
        segmentIdx := segmentIdx + 1;
      }
      if parts[i].name == name {
        break;
      }
      i := i + 1;
    }
  }

  /** ar8030_upgrade_partition_byname. */
  method PartitionByName(u: Ota.Upgrade, img: Image, name: string) returns (ret: int)
    requires Whole(img) && Clean(u.log)
    requires var t := TargetOf(img, name); t.Place? ==> Fits(u.flash, t.addr, t.data)
    modifies u
    ensures TargetOf(img, name).Place? ==>
      var t := TargetOf(img, name);
      && Only(old(u.flash), old(u.trail), u.flash, u.trail, t.addr, t.data)
      && ret == (if GaveUp(u.log) then -1 else 0)
      && (ret == 0 ==> u.flash == Overwritten(old(u.flash), t.addr, t.data))
    ensures !TargetOf(img, name).Place? ==>
      && u.flash == old(u.flash) && u.trail == old(u.trail) && u.log == old(u.log) && !GaveUp(u.log)
      && ret == if TargetOf(img, name).Unmarked? then 0 else -1
    ensures old(u.log) <= u.log && (ret == 0 ==> Clean(u.log))
    ensures ret == 0 ==> FirstHolds(u.flash, img, name)
  {
    Ota.CleanGoesOn(u.log);
    hide Only, Overwritten, Clean, GaveUp, AllWell, NameFrom;
    var i, segmentIdx := FindPart(img.parts, name);
    if i >= |img.parts| {
      return -1;
    }
    if !img.parts[i].isUpgrade {
      UnmarkedHolds(u.flash, img, name, i);
      return 0;
    }
    MarkedGrows(img.parts, i + 1, |img.parts|);
    if segmentIdx < 0 || img.parts[i].flashOffset != img.segs[segmentIdx].flashOffset {
      return -1;
    }
    assert segmentIdx == Marked(img.parts, i);
    hide Marked;
    var s := img.segs[segmentIdx];
    var partitionAddr, partitionLen := s.flashOffset + GPT_FLASH_OFFSET, s.sizeDecompress;
    if partitionAddr > UINT32_MAX || partitionLen > UINT32_MAX {
      return -1;
    }
    ghost var rounds: nat;
    OverwrittenHolds(u.flash, img, name, i, s);
    hide FirstHolds;
    ret, rounds := u.UpgradePartition(partitionAddr, img.file[s.imgOffset..s.imgOffset + partitionLen]);
  }

  lemma GptFits(img: Image, f: Flash, slot: nat)
    requires Sound(img) && FlashFits(img, f)
    ensures Fits(f, GptAt(img, slot), img.gpt) && Whole(img)
    ensures forall k :: GptAt(img, slot) <= k < GptAt(img, slot) + |img.gpt| ==> InSlot(img, slot, k)
  {
  }

  lemma PlaceFits(img: Image, f: Flash, slot: nat)
    requires Sound(img) && FlashFits(img, f) && NotEmpty(img, AppName(slot))
    ensures var t := TargetOf(img, AppName(slot));
      t.Place? ==> Fits(f, t.addr, t.data) && forall k :: t.addr <= k < t.addr + |t.data| ==> InSlot(img, slot, k)
  {
    var t, i := TargetOf(img, AppName(slot)), NameFrom(img.parts, AppName(slot), 0);
    if t.Place? {
      StaysInsideIff(img, AppName(slot));
      assert img.parts[i] in img.parts;
      if t.data != [] {
        assert InPartition(img, AppName(slot), t.addr + |t.data| - 1);
      }
    }
  }

  /** The slot's application can be written, or is not to be. */
  predicate Settled(img: Image, slot: nat)
    requires Whole(img)
  {
    var t := TargetOf(img, AppName(slot));
    t.Place? || t.Unmarked?
  }

  /** At every snapshot the slot's application is as it was, or its GPT copy is already the new one. */
  ghost predicate GptFirst(f0: Flash, h: seq<Flash>, trail: seq<Flash>, img: Image, slot: nat) {
    h <= trail && forall k :: |h| <= k < |trail| ==> AppUntouched(f0, trail[k], img, slot) || GptNew(trail[k], img, slot)
  }

  ghost predicate AppUntouched(f0: Flash, f: Flash, img: Image, slot: nat) {
    |f| == |f0| && forall k :: 0 <= k < |f| && InPartition(img, AppName(slot), k) ==> f[k] == f0[k]
  }

  lemma GptLeavesApp(f0: Flash, h: seq<Flash>, f: Flash, h': seq<Flash>, img: Image, slot: nat)
    requires Sound(img) && slot < 2 && Only(f0, h, f, h', GptAt(img, slot), img.gpt)
    ensures GptFirst(f0, h, h', img, slot)
  {
    assert |img.gpt| == GPT_FLASH_SIZE;
    forall k | InPartition(img, AppName(slot), k)
      ensures GptAt(img, slot) + |img.gpt| <= k
    {
      assert img.parts[NameFrom(img.parts, AppName(slot), 0)] in img.parts;
    }
    hide InPartition, Whole, Verified;
    forall g | PartlyWritten(f0, g, GptAt(img, slot), img.gpt)
      ensures AppUntouched(f0, g, img, slot)
    {
    }
  }

  lemma AppLeavesGpt(f: Flash, h: seq<Flash>, f': Flash, h': seq<Flash>, img: Image, slot: nat)
    requires Sound(img) && slot < 2 && GptNew(f, img, slot) && TargetOf(img, AppName(slot)).Place?
    requires var t := TargetOf(img, AppName(slot)); Only(f, h, f', h', t.addr, t.data)
    ensures h <= h' && forall k :: |h| <= k < |h'| ==> GptNew(h'[k], img, slot)
  {
    var t := TargetOf(img, AppName(slot));
    assert img.parts[NameFrom(img.parts, AppName(slot), 0)] in img.parts;
    assert |img.gpt| == GPT_FLASH_SIZE && t.addr >= GptAt(img, slot) + GPT_FLASH_SIZE;
    hide Whole, Verified, TargetOf;
    forall g | PartlyWritten(f, g, t.addr, t.data)
      ensures GptNew(g, img, slot)
    {
      HasStays(f, g, GptAt(img, slot), img.gpt);
    }
  }

  lemma GptFirstGoesOn(f0: Flash, h: seq<Flash>, h1: seq<Flash>, h2: seq<Flash>, img: Image, slot: nat)
    requires GptFirst(f0, h, h1, img, slot) && h1 <= h2
    requires forall k :: |h1| <= k < |h2| ==> GptNew(h2[k], img, slot)
    ensures GptFirst(f0, h, h2, img, slot)
  {
    hide AppUntouched, GptNew;
    forall k | |h| <= k < |h2|
      ensures AppUntouched(f0, h2[k], img, slot) || GptNew(h2[k], img, slot)
    {
      if k < |h1| {
        SnapshotAt(h1, h2, k);
      }
    }
  }

  /** One slot: its GPT copy, then its application. */
  method UpgradeSlot(u: Ota.Upgrade, img: Image, slot: nat) returns (ret: int)
    requires Sound(img) && FlashFits(img, u.flash) && slot < 2 && NotEmpty(img, AppName(slot)) && Clean(u.log)
    modifies u
    ensures AllWithin(old(u.flash), old(u.trail), u.flash, u.trail, img, slot)
    ensures GptFirst(old(u.flash), old(u.trail), u.trail, img, slot)
    ensures ret == 0 || ret == -1
    ensures old(u.log) <= u.log && (ret == 0 ==> Clean(u.log))
    ensures ret == 0 <==> !GaveUp(u.log) && Settled(img, slot)
    ensures ret == 0 ==> GptNew(u.flash, img, slot)
    ensures ret == 0 ==> TargetOf(img, AppName(slot)).Unmarked? || Renewed(u.flash, img, slot)
  {
    GptFits(img, u.flash, slot);
    PlaceFits(img, u.flash, slot);
    hide Only, Overwritten, AllWithin, InSlot, Sound, Has, Clean, GaveUp, AllWell, GptFirst;
    ghost var rounds: nat;
    ret, rounds := u.UpgradePartition(GptAt(img, slot), img.gpt);
    WritesWithin(old(u.flash), old(u.trail), u.flash, u.trail, GptAt(img, slot), img.gpt, img, slot);
    GptLeavesApp(old(u.flash), old(u.trail), u.flash, u.trail, img, slot);
    if ret < 0 {
      return;
    }
    WrittenThere(old(u.flash), u.flash, GptAt(img, slot), img.gpt);
    label L:
    ret := PartitionByName(u, img, AppName(slot));
    var t := TargetOf(img, AppName(slot));
    if t.Place? {
      WritesWithin(old@L(u.flash), old@L(u.trail), u.flash, u.trail, t.addr, t.data, img, slot);
      AppLeavesGpt(old@L(u.flash), old@L(u.trail), u.flash, u.trail, img, slot);
      GptFirstGoesOn(old(u.flash), old(u.trail), old@L(u.trail), u.trail, img, slot);
      WithinChains(old(u.flash), old(u.trail), old@L(u.flash), old@L(u.trail), u.flash, u.trail, img, slot);
      if ret == 0 {
        WrittenThere(old@L(u.flash), u.flash, t.addr, t.data);
        GptStays(img, slot, old@L(u.flash), u.flash);
      }
    }
  }

  /** One copy can be started: the running one has not been touched, or the other one is complete. */
  ghost predicate OneUsable(f0: Flash, f: Flash, img: Image, run: nat)
    requires Whole(img) && run < 2
  {
    Untouched(f0, f, img, run) || Renewed(f, img, 1 - run)
  }

  /** All snapshots since h, and f, leave one copy usable. */
  ghost predicate AllUsable(f0: Flash, h: seq<Flash>, f: Flash, trail: seq<Flash>, img: Image, run: nat)
    requires Whole(img) && run < 2
  {
    && OneUsable(f0, f, img, run)
    && h <= trail
    && forall k :: |h| <= k < |trail| ==> OneUsable(f0, trail[k], img, run)
  }

  /** Nothing outside the boot ROM's code and the two slots differs. */
  ghost predicate Confined(f0: Flash, f: Flash, img: Image) {
    |f| == |f0| && forall k :: 0 <= k < |f| && f[k] != f0[k] ==>
      k < img.hdr.romSize || InSlot(img, 0, k) || InSlot(img, 1, k)
  }

  lemma UntouchedChains(a: Flash, b: Flash, c: Flash, img: Image, slot: nat)
    requires Untouched(a, b, img, slot) && Untouched(b, c, img, slot)
    ensures Untouched(a, c, img, slot)
  {
    hide InSlot;
  }

  lemma SnapshotAt(h: seq<Flash>, h': seq<Flash>, k: nat)
    requires h <= h' && k < |h|
    ensures h'[k] == h[k]
  {
  }

  /** While the boot ROM's code is written, both slots stay. */
  lemma RomPhase(f0: Flash, h: seq<Flash>, f: Flash, h': seq<Flash>, img: Image, run: nat)
    requires Sound(img) && run < 2 && Only(f0, h, f, h', 0, img.romcode)
    ensures AllUsable(f0, h, f, h', img, run) && Untouched(f0, f, img, run) && Confined(f0, f, img)
  {
    assert |img.romcode| == img.hdr.romSize;
    hide InSlot, Verified, Renewed;
    forall k, g | 0 <= k < |g| == |f0| && PartlyWritten(f0, g, 0, img.romcode) && InSlot(img, run, k)
      ensures g[k] == f0[k]
    {
      SlotsApart(img, k);
    }
  }

  /** While the other slot is written, the running one stays. */
  lemma OtherPhase(f0: Flash, h: seq<Flash>, f1: Flash, h1: seq<Flash>, f2: Flash, h2: seq<Flash>, img: Image, run: nat)
    requires Sound(img) && run < 2
    requires AllUsable(f0, h, f1, h1, img, run) && Untouched(f0, f1, img, run) && Confined(f0, f1, img)
    requires AllWithin(f1, h1, f2, h2, img, 1 - run)
    ensures AllUsable(f0, h, f2, h2, img, run) && Confined(f0, f2, img)
  {
    assert Whole(img);
    hide InSlot, Sound, Untouched, Renewed;
    forall g | Within(f1, g, img, 1 - run)
      ensures Untouched(f0, g, img, run)
    {
      OtherSlotStays(f1, g, img, 1 - run, run);
      UntouchedChains(f0, f1, g, img, run);
    }
    forall k | |h| <= k < |h2|
      ensures OneUsable(f0, h2[k], img, run)
    {
      if k < |h1| {
        SnapshotAt(h1, h2, k);
      }
    }
  }

  /** While the running slot is written, the other one stays complete. */
  lemma RunningPhase(f0: Flash, h: seq<Flash>, f1: Flash, h1: seq<Flash>, f2: Flash, h2: seq<Flash>, img: Image, run: nat)
    requires Sound(img) && run < 2 && NotEmpty(img, AppName(1 - run))
    requires AllUsable(f0, h, f1, h1, img, run) && Renewed(f1, img, 1 - run) && Confined(f0, f1, img)
    requires AllWithin(f1, h1, f2, h2, img, run)
    ensures AllUsable(f0, h, f2, h2, img, run) && Confined(f0, f2, img) && Renewed(f2, img, 1 - run)
  {
    assert Whole(img);
    hide InSlot, Sound, Untouched, Renewed, NotEmpty, AppName;
    forall g | Within(f1, g, img, run)
      ensures Renewed(g, img, 1 - run)
    {
      OtherSlotStays(f1, g, img, run, 1 - run);
      RenewedStays(f1, g, img, 1 - run);
    }
    forall k | |h| <= k < |h2|
      ensures OneUsable(f0, h2[k], img, run)
    {
      if k < |h1| {
        SnapshotAt(h1, h2, k);
      }
    }
  }

  /** With an unmarked application, whole new GPT copies in both slots leave neither the running pair nor a
      complete new one. */
  lemma UnmarkedLeavesNone(f0: Flash, f: Flash, img: Image, run: nat)
    requires Whole(img) && run < 2 && TargetOf(img, AppName(1 - run)).Unmarked?
    requires GptNew(f, img, run) && !GptNew(f0, img, run)
    ensures !OneUsable(f0, f, img, run)
  {
    if Untouched(f0, f, img, run) {
      assert |img.gpt| == GPT_FLASH_SIZE;
      HasStays(f, f0, GptAt(img, run), img.gpt);
    }
  }

  /** The upgrade as a whole. After every single exchange with the device, whether or not the upgrade
      gets to its end, one GPT copy together with its application is usable, the running pair as it
      was or the other pair complete, provided the application written first is not one left unmarked.
      With an unmarked one, every run that gets to its end with a new GPT leaves neither. */
  method UpgradeImage(u: Ota.Upgrade, img: Image, master: bool) returns (ret: int)
    requires Sound(img) && FlashFits(img, u.flash) && NotEmpty(img, "app0") && NotEmpty(img, "app1") && Clean(u.log)
    modifies u
    ensures Confined(old(u.flash), u.flash, img)
    ensures !TargetOf(img, if master then "app1" else "app0").Unmarked? ==>
      AllUsable(old(u.flash), old(u.trail), u.flash, u.trail, img, if master then 0 else 1)
    ensures old(u.log) <= u.log
    ensures ret == 0 <==> !GaveUp(u.log) && Settled(img, 0) && Settled(img, 1)
    ensures AllWell(old(u.log), u.log) && Settled(img, 0) && Settled(img, 1) ==> ret == 0
    ensures ret == 0 ==> forall slot :: 0 <= slot < 2 ==>
      GptNew(u.flash, img, slot) && (Renewed(u.flash, img, slot) || TargetOf(img, AppName(slot)).Unmarked?)
    ensures ret == 0 ==> Has(u.flash, 0, img.romcode)
    ensures var run := if master then 0 else 1;
      ret == 0 && !GptNew(old(u.flash), img, run) ==>
        (OneUsable(old(u.flash), u.flash, img, run) <==> !TargetOf(img, AppName(1 - run)).Unmarked?)
  {
    var run: nat := if master then 0 else 1;
    RomFits(img, u.flash);
    Ota.WellOnly(u.log);
    hide AllUsable, Confined, AllWithin, Only, Overwritten, Sound, Renewed, NotEmpty, FlashFits, Untouched, GptNew;
    hide OneUsable, Clean, GaveUp, AllWell, Has;
    NothingWritten(u.flash, u.trail, img.romcode);
    if img.hdr.romSize != 0 {
      ghost var rounds: nat;
      ret, rounds := u.UpgradePartition(0, img.romcode);
      RomPhase(old(u.flash), old(u.trail), u.flash, u.trail, img, run);
      if ret < 0 {
        return;
      }
    }
    RomPhase(old(u.flash), old(u.trail), u.flash, u.trail, img, run);
    RomThere(img, old(u.flash), u.flash);
    label A:
    SameSize(img, old(u.flash), u.flash);
    ret := UpgradeSlot(u, img, 1 - run);
    OtherPhase(old(u.flash), old(u.trail), old@A(u.flash), old@A(u.trail), u.flash, u.trail, img, run);
    RomStays(old@A(u.flash), old@A(u.trail), u.flash, u.trail, img, 1 - run);
    if ret < 0 {
      return;
    }
    label B:
    SameSize(img, old(u.flash), u.flash);
    ret := UpgradeSlot(u, img, run);
    SecondSlot(old(u.flash), old(u.trail), old@B(u.flash), old@B(u.trail), u.flash, u.trail, img, run);
    RomStays(old@B(u.flash), old@B(u.trail), u.flash, u.trail, img, run);
    if ret == 0 && !GptNew(old(u.flash), img, run) {
      AtTheEnd(old(u.flash), u.flash, img, run);
    }
  }

  /** The second slot is written after the first has been, or has been left unmarked. */
  lemma SecondSlot(f0: Flash, h: seq<Flash>, f1: Flash, h1: seq<Flash>, f2: Flash, h2: seq<Flash>, img: Image, run: nat)
    requires Sound(img) && run < 2 && NotEmpty(img, AppName(1 - run))
    requires AllUsable(f0, h, f1, h1, img, run) && Confined(f0, f1, img) && AllWithin(f1, h1, f2, h2, img, run)
    requires GptNew(f1, img, 1 - run) && (TargetOf(img, AppName(1 - run)).Unmarked? || Renewed(f1, img, 1 - run))
    ensures Confined(f0, f2, img) && GptNew(f2, img, 1 - run)
    ensures Renewed(f1, img, 1 - run) ==> AllUsable(f0, h, f2, h2, img, run) && Renewed(f2, img, 1 - run)
    ensures !TargetOf(img, AppName(1 - run)).Unmarked? ==> AllUsable(f0, h, f2, h2, img, run)
  {
    assert Within(f1, f2, img, run);
    OtherSlotStays(f1, f2, img, run, 1 - run);
    GptNewStays(f1, f2, img, 1 - run);
    ConfinedChains(f0, f1, f2, img, run);
    hide Sound, AllUsable, AllWithin, Renewed, GptNew, Confined, Within, NotEmpty;
    if Renewed(f1, img, 1 - run) {
      RunningPhase(f0, h, f1, h1, f2, h2, img, run);
    }
  }

  lemma GptNewStays(f0: Flash, f: Flash, img: Image, slot: nat)
    requires Whole(img) && GptNew(f0, img, slot) && Untouched(f0, f, img, slot)
    ensures GptNew(f, img, slot)
  {
    assert |img.gpt| == GPT_FLASH_SIZE;
    hide InPartition, Whole;
    HasStays(f0, f, GptAt(img, slot), img.gpt);
  }

  lemma ConfinedChains(f0: Flash, f1: Flash, f2: Flash, img: Image, slot: nat)
    requires slot < 2 && Confined(f0, f1, img) && Within(f1, f2, img, slot)
    ensures Confined(f0, f2, img)
  {
    hide InSlot;
  }

  lemma AtTheEnd(f0: Flash, f: Flash, img: Image, run: nat)
    requires Whole(img) && run < 2 && GptNew(f, img, run) && !GptNew(f0, img, run)
    requires TargetOf(img, AppName(1 - run)).Unmarked? || Renewed(f, img, 1 - run)
    ensures OneUsable(f0, f, img, run) <==> !TargetOf(img, AppName(1 - run)).Unmarked?
  {
    hide Whole, Untouched, GptNew;
    if TargetOf(img, AppName(1 - run)).Unmarked? {
      UnmarkedLeavesNone(f0, f, img, run);
    }
  }

  /** The boot ROM's code is there once it has been written, or when there is none. */
  lemma RomThere(img: Image, f0: Flash, f: Flash)
    requires Whole(img) && Fits(f0, 0, img.romcode)
    requires img.hdr.romSize != 0 ==> f == Overwritten(f0, 0, img.romcode)
    ensures Has(f, 0, img.romcode)
  {
    assert |img.romcode| == img.hdr.romSize;
  }

  lemma RomStays(f0: Flash, h: seq<Flash>, f: Flash, h': seq<Flash>, img: Image, slot: nat)
    requires Sound(img) && slot < 2 && AllWithin(f0, h, f, h', img, slot)
    ensures Has(f0, 0, img.romcode) ==> Has(f, 0, img.romcode)
  {
    assert |img.romcode| == img.hdr.romSize;
    hide InSlot, Whole, Verified;
    if Has(f0, 0, img.romcode) {
      forall k | 0 <= k < img.hdr.romSize
        ensures f[k] == f0[k]
      {
        SlotsApart(img, k);
      }
      HasStays(f0, f, 0, img.romcode);
    }
  }

  lemma RomFits(img: Image, f: Flash)
    requires Sound(img) && FlashFits(img, f)
    ensures Fits(f, 0, img.romcode) && Whole(img) && |img.romcode| == img.hdr.romSize
  {
  }

  lemma NothingWritten(f: Flash, h: seq<Flash>, d: seq<bv8>)
    ensures Only(f, h, f, h, 0, d)
  {
  }

  lemma SameSize(img: Image, f0: Flash, f: Flash)
    requires FlashFits(img, f0) && Confined(f0, f, img)
    ensures FlashFits(img, f)
  {
  }
}
