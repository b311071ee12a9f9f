/** What a firmware write may do to the device's flash, and the arithmetic of cutting an image into
    blocks and chunks (app/ota_upgrade/ota_upgrade.c). */
module FlashSpec {

  type Flash = seq<bv8>

  const WRITE_MAX_SIZE: nat := 0x300
  const PAGE: nat := 0x1000
  const WAIT_MAX: nat := 8

  predicate Fits(f: Flash, at: nat, d: seq<bv8>) {
    at + |d| <= |f|
  }

  /** d written whole at at, and nothing else changed. */
  function Overwritten(f: Flash, at: nat, d: seq<bv8>): (r: Flash)
    requires Fits(f, at, d)
    ensures |r| == |f|
  {
    f[..at] + d + f[at + |d|..]
  }

  /** Every byte is as before or already the one to be written there; outside d's place nothing changed. */
  ghost predicate PartlyWritten(before: Flash, f: Flash, at: nat, d: seq<bv8>) {
    && |f| == |before|
    && forall k :: 0 <= k < |f| ==> f[k] == before[k] || (at <= k < at + |d| && f[k] == d[k - at])
  }

  /** From before, with the snapshots in h taken so far, to f with those in trail: at every point
      between, d is at most partly written and nothing else is touched. */
  ghost predicate Only(before: Flash, h: seq<Flash>, f: Flash, trail: seq<Flash>, at: nat, d: seq<bv8>) {
    && PartlyWritten(before, f, at, d)
    && h <= trail
    && forall k :: |h| <= k < |trail| ==> PartlyWritten(before, trail[k], at, d)
  }

  lemma PartlyChains(a: Flash, b: Flash, c: Flash, at: nat, d: seq<bv8>, off: nat, n: nat)
    requires off + n <= |d|
    requires PartlyWritten(a, b, at, d) && PartlyWritten(b, c, at + off, d[off..off + n])
    ensures PartlyWritten(a, c, at, d)
  {
  }

  /** Writing a part of d after parts of d is still writing parts of d. */
  lemma OnlyChains(a: Flash, h: seq<Flash>, b: Flash, h': seq<Flash>, c: Flash, h'': seq<Flash>,
                   at: nat, d: seq<bv8>, off: nat, n: nat)
    requires off + n <= |d|
    requires Only(a, h, b, h', at, d) && Only(b, h', c, h'', at + off, d[off..off + n])
    ensures Only(a, h, c, h'', at, d)
  {
    hide PartlyWritten;
    PartlyChains(a, b, c, at, d, off, n);
    forall k | |h| <= k < |h''|
      ensures PartlyWritten(a, h''[k], at, d)
    {
      if k < |h'| {
        assert h''[k] == h'[k];
      } else {
        PartlyChains(a, b, h''[k], at, d, off, n);
      }
    }
  }

  /** d has arrived from its byte from on up to its byte to. */
  ghost predicate Arrived(f: Flash, at: nat, d: seq<bv8>, from: nat, to: nat) {
    to <= |d| && at + to <= |f| && forall k :: from <= k < to ==> f[at + k] == d[k]
  }

  /** What has arrived stays, whatever other part of the same data is written. */
  lemma ArrivedStays(b: Flash, c: Flash, at: nat, d: seq<bv8>, from: nat, to: nat, off: nat, n: nat)
    requires off + n <= |d|
    requires Arrived(b, at, d, from, to) && PartlyWritten(b, c, at + off, d[off..off + n])
    ensures Arrived(c, at, d, from, to)
  {
    forall k | from <= k < to
      ensures c[at + k] == d[k]
    {
      if c[at + k] != b[at + k] {
        assert c[at + k] == d[off..off + n][at + k - (at + off)];
      }
    }
  }

  lemma ArrivedChunk(b: Flash, c: Flash, at: nat, d: seq<bv8>, from: nat, off: nat, n: nat)
    requires off + n <= |d| && from <= off && at + |d| <= |b|
    requires Arrived(b, at, d, from, off) && c == Overwritten(b, at + off, d[off..off + n])
    ensures Arrived(c, at, d, from, off + n)
  {
  }

  /** Partly written, and every byte arrived: written, and nothing else changed. */
  lemma AllArrived(a: Flash, c: Flash, at: nat, d: seq<bv8>)
    requires Fits(a, at, d) && PartlyWritten(a, c, at, d) && Arrived(c, at, d, 0, |d|)
    ensures c == Overwritten(a, at, d) && c[at..at + |d|] == d
  {
  }

  // Blocks and chunks.

  function Threads(len: nat): nat {
    if len / PAGE > WAIT_MAX then WAIT_MAX else len / PAGE
  }

  function BlockLen(len: nat): nat {
    if len / PAGE > WAIT_MAX then len / PAGE / WAIT_MAX * PAGE else PAGE
  }

  /** What the parallel write of len bytes leaves over. */
  function Left(len: nat): (left: nat)
    ensures left == len - BlockLen(len) * Threads(len)
  {
    len - BlockLen(len) * Threads(len)
  }

  /** The parallel loop runs at most twice. */
  lemma TwoRoundsAtMost(len: nat)
    ensures len > PAGE ==> Left(len) < len
    ensures Left(len) <= PAGE || Left(Left(len)) <= PAGE
  {
    var pages := len / PAGE;
    assert len == PAGE * pages + len % PAGE;
    if pages > WAIT_MAX {
      assert pages == WAIT_MAX * (pages / WAIT_MAX) + pages % WAIT_MAX;
      var left := Left(len);
      assert left == PAGE * (pages % WAIT_MAX) + len % PAGE;
      assert left / PAGE == pages % WAIT_MAX;
    }
  }

  /** At most eight threads write at once, all eight of them from 32 KiB on; every block is made of whole pages,
      and less than eight pages are left over. */
  lemma BlockRule(len: nat)
    ensures Threads(len) <= 8 && (len >= 0x8000 ==> Threads(len) == 8) && (len < 0x8000 ==> Threads(len) == len / 0x1000)
    ensures BlockLen(len) % 0x1000 == 0 && Left(len) < 0x8000 && (len < 0x8000 ==> Left(len) < 0x1000)
  {
    var pages := len / PAGE;
    assert len == PAGE * pages + len % PAGE;
    if pages > WAIT_MAX {
      var per := pages / WAIT_MAX;
      assert pages == WAIT_MAX * per + pages % WAIT_MAX;
      assert BlockLen(len) == PAGE * per;
      assert BlockLen(len) * Threads(len) == PAGE * (WAIT_MAX * per);
      assert (PAGE * per) % PAGE == 0 by { WholePages(per); }
    }
  }

  lemma WholePages(n: nat)
    ensures (PAGE * n) % PAGE == 0
  {
  }

  function Chunks(len: nat): nat {
    if len % WRITE_MAX_SIZE == 0 then len / WRITE_MAX_SIZE else len / WRITE_MAX_SIZE + 1
  }

  function ChunkLen(len: nat, i: nat): nat
    requires i < Chunks(len)
  {
    if i < len / WRITE_MAX_SIZE then WRITE_MAX_SIZE else len % WRITE_MAX_SIZE
  }

  lemma ChunkFits(len: nat, i: nat)
    requires i < Chunks(len)
    ensures 0 < ChunkLen(len, i) <= WRITE_MAX_SIZE && i * WRITE_MAX_SIZE + ChunkLen(len, i) <= len
    ensures i * WRITE_MAX_SIZE + ChunkLen(len, i) == if i + 1 < Chunks(len) then (i + 1) * WRITE_MAX_SIZE else len
    ensures i + 1 == Chunks(len) ==> i * WRITE_MAX_SIZE + ChunkLen(len, i) == len <= (i + 1) * WRITE_MAX_SIZE
  {
  }

  /** Byte k of the image is in chunk i of thread t. */
  predicate InChunk(len: nat, k: nat, t: nat, i: nat) {
    && t < Threads(len) && i < Chunks(BlockLen(len))
    && var from := t * BlockLen(len) + i * WRITE_MAX_SIZE;
    from <= k < from + ChunkLen(BlockLen(len), i)
  }

  lemma AtLeastOnce(n: nat, block: nat)
    ensures n > 0 ==> n * block >= block
  {
  }

  lemma InBlock(k: int, t: int, block: int, r: int)
    requires 0 < block && k == t * block + r && 0 <= r < block
    ensures k / block == t && k % block == r
  {
    var q, s := k / block, k % block;
    assert q * block + s == t * block + r;
    if q < t {
      AtLeastOnce(t - q, block);
    } else if q > t {
      AtLeastOnce(q - t, block);
    }
  }

  lemma BlockIndex(k: nat, block: nat, threads: nat)
    requires k < block * threads
    ensures 0 < block && k / block < threads && k == k / block * block + k % block
  {
  }

  lemma BlockEnd(t: nat, block: nat, threads: nat)
    requires t < threads
    ensures t * block + block <= block * threads
  {
    var beyond: nat := threads - t - 1;
    assert block * threads == t * block + block + beyond * block;
  }

  lemma ByteHasChunk(len: nat, k: nat)
    requires k < len - Left(len)
    ensures 0 < BlockLen(len)
    ensures InChunk(len, k, k / BlockLen(len), k % BlockLen(len) / WRITE_MAX_SIZE)
  {
    BlockIndex(k, BlockLen(len), Threads(len));
    hide BlockLen, Threads;
    var r := k % BlockLen(len);
    assert r / WRITE_MAX_SIZE < Chunks(BlockLen(len));
    ChunkFits(BlockLen(len), r / WRITE_MAX_SIZE);
  }

  lemma ChunkOfByte(len: nat, k: nat, t: nat, i: nat)
    requires InChunk(len, k, t, i)
    ensures k < len - Left(len)
    ensures 0 < BlockLen(len) && t == k / BlockLen(len) && i == k % BlockLen(len) / WRITE_MAX_SIZE
  {
    hide BlockLen, Threads;
    var block := BlockLen(len);
    ChunkFits(block, i);
    InBlock(k, t, block, k - t * block);
    BlockEnd(t, block, Threads(len));
  }

  /** The chunks of all threads tile the bytes written in parallel: every one of these bytes is in one
      chunk of one thread, and no chunk reaches beyond them. */
  lemma ChunksTile(len: nat, k: nat)
    ensures k < len - Left(len) <==> exists t: nat, i: nat :: InChunk(len, k, t, i)
    ensures forall t: nat, i: nat, t': nat, i': nat ::
      InChunk(len, k, t, i) && InChunk(len, k, t', i') ==> t == t' && i == i'
  {
    hide InChunk, Left, BlockLen;
    if k < len - Left(len) {
      ByteHasChunk(len, k);
    }
    forall t: nat, i: nat | InChunk(len, k, t, i)
      ensures k < len - Left(len)
      ensures 0 < BlockLen(len) && t == k / BlockLen(len) && i == k % BlockLen(len) / WRITE_MAX_SIZE
    {
      ChunkOfByte(len, k, t, i);
    }
  }
}
