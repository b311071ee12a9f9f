/** The firmware write of app/ota_upgrade/ota_upgrade.c: retried exchanges with the device, up to eight
    write threads at once, and what is left over written one chunk after the other. The device's
    answers, the scheduling of the threads and the success of their creation are arbitrary choices. */
module Ota {
  import opened Bytes
  import opened Crc
  import opened FlashSpec
  import opened OtaLog

  /** The most one write exchange can carry. */
  const MAX_PAYLOAD: nat := 1016

  function Progress(w: Worker, len: nat): nat {
    match w
    case Finished(bytes) => bytes
    case Test(i) => Min(i * WRITE_MAX_SIZE, len)
    case Write(i, _) => Min(i * WRITE_MAX_SIZE, len)
  }

  /** A finished thread without an error anywhere has written its whole block. */
  predicate WorkerOk(w: Worker, len: nat, err: bool) {
    match w
    case Test(i) => i <= Chunks(len)
    case Write(i, failures) => i < Chunks(len) && failures <= WRITE_RETRY_TIMES
    case Finished(bytes) => bytes <= len && (!err ==> bytes == len)
  }

  /** At least as many steps as the thread has still to take. */
  function StepsLeft(w: Worker, len: nat): nat {
    match w
    case Test(i) => if i < Chunks(len) then 13 * (Chunks(len) - i) + 1 else 1
    case Write(i, failures) => if i < Chunks(len) && failures <= 10 then 13 * (Chunks(len) - i) - failures else 0
    case Finished(_) => 0
  }

  function AllProgress(ws: seq<Worker>, len: nat): (r: seq<int>)
    ensures |r| == |ws|
  {
    seq(|ws|, t requires 0 <= t < |ws| => Progress(ws[t], len))
  }

  function AllStepsLeft(ws: seq<Worker>, len: nat): (r: seq<int>)
    ensures |r| == |ws|
  {
    seq(|ws|, t requires 0 <= t < |ws| => StepsLeft(ws[t], len))
  }

  lemma SumUpdate(s: seq<int>, i: nat, v: int)
    requires i < |s|
    ensures Sum(s[i := v]) == Sum(s) - s[i] + v
  {
    assert s == s[..i] + ([s[i]] + s[i + 1..]);
    assert s[i := v] == s[..i] + ([v] + s[i + 1..]);
    SumAppend(s[..i], [s[i]] + s[i + 1..]);
    SumAppend(s[..i], [v] + s[i + 1..]);
  }

  lemma {:induction false} SumSame(s: seq<int>, v: nat)
    requires forall i :: 0 <= i < |s| ==> s[i] == v
    ensures Sum(s) == |s| * v
    decreases |s|
  {
    if s != [] {
      SumSame(s[1..], v);
      assert (|s| - 1) * v + v == |s| * v;
    }
  }

  lemma {:induction false} SumNotNegative(s: seq<int>)
    requires forall i :: 0 <= i < |s| ==> s[i] >= 0
    ensures Sum(s) >= 0
    decreases |s|
  {
    if s != [] {
      SumNotNegative(s[1..]);
    }
  }

  /** One thread's step in the sums over all threads. */
  lemma StepInSums(ws: seq<Worker>, t: nat, w: Worker, len: nat)
    requires t < |ws|
    ensures Sum(AllProgress(ws[t := w], len)) == Sum(AllProgress(ws, len)) - Progress(ws[t], len) + Progress(w, len)
    ensures Sum(AllStepsLeft(ws[t := w], len)) == Sum(AllStepsLeft(ws, len)) - StepsLeft(ws[t], len) + StepsLeft(w, len)
    ensures Sum(AllStepsLeft(ws, len)) >= 0
  {
    hide Progress, StepsLeft;
    SumUpdate(AllProgress(ws, len), t, Progress(w, len));
    SumUpdate(AllStepsLeft(ws, len), t, StepsLeft(w, len));
    SumNotNegative(AllStepsLeft(ws, len));
    assert AllProgress(ws[t := w], len) == AllProgress(ws, len)[t := Progress(w, len)];
    assert AllStepsLeft(ws[t := w], len) == AllStepsLeft(ws, len)[t := StepsLeft(w, len)];
  }

  lemma NewInSums(ws: seq<Worker>, len: nat)
    ensures Sum(AllProgress(ws + [Test(0)], len)) == Sum(AllProgress(ws, len))
  {
    assert AllProgress(ws + [Test(0)], len) == AllProgress(ws, len) + [0];
    SumAppend(AllProgress(ws, len), [0]);
  }

  /** The thread whose block of len bytes starts at off of the data. */
  ghost predicate ThreadOk(f: Flash, err: bool, w: Worker, addr: nat, data: seq<bv8>, off: nat, len: nat) {
    && off + len <= |data|
    && WorkerOk(w, len, err)
    && Arrived(f, addr, data, off, off + Progress(w, len))
  }

  ghost predicate ThreadsOk(f: Flash, err: bool, ws: seq<Worker>, addr: nat, data: seq<bv8>, len: nat) {
    forall t :: 0 <= t < |ws| ==> ThreadOk(f, err, ws[t], addr, data, t * len, len)
  }

  lemma ArrivedInBlock(f: Flash, addr: nat, data: seq<bv8>, off: nat, len: nat, p: nat)
    requires off + len <= |data| && p <= len && addr + |data| <= |f|
    ensures Arrived(f, addr, data, off, off + p) <==> Arrived(f, addr + off, data[off..off + len], 0, p)
  {
    var block := data[off..off + len];
    if Arrived(f, addr + off, block, 0, p) {
      forall k | off <= k < off + p
        ensures f[addr + k] == data[k]
      {
        assert f[addr + off + (k - off)] == block[k - off];
      }
    }
  }

  lemma ProgressFits(w: Worker, len: nat, err: bool)
    requires WorkerOk(w, len, err)
    ensures Progress(w, len) <= len
  {
  }

  lemma OtherStays(f: Flash, f': Flash, err: bool, err': bool, w: Worker, addr: nat, data: seq<bv8>, at: nat,
                   off: nat, len: nat)
    requires off + len <= |data| && (err ==> err')
    requires ThreadOk(f, err, w, addr, data, at, len)
    requires PartlyWritten(f, f', addr + off, data[off..off + len])
    ensures ThreadOk(f', err', w, addr, data, at, len)
  {
    hide Progress, Arrived, PartlyWritten;
    ArrivedStays(f, f', addr, data, at, at + Progress(w, len), off, len);
  }

  /** One thread's step leaves the others where they are. */
  lemma OthersStay(f: Flash, f': Flash, err: bool, err': bool, ws: seq<Worker>, t: nat, w: Worker, addr: nat,
                   data: seq<bv8>, len: nat)
    requires t < |ws| && t * len + len <= |data| && (err ==> err')
    requires ThreadsOk(f, err, ws, addr, data, len) && ThreadOk(f', err', w, addr, data, t * len, len)
    requires PartlyWritten(f, f', addr + t * len, data[t * len..t * len + len])
    ensures ThreadsOk(f', err', ws[t := w], addr, data, len)
  {
    hide ThreadOk, PartlyWritten;
    forall u: nat | u < |ws|
      ensures ThreadOk(f', err', ws[t := w][u], addr, data, u * len, len)
    {
      if u != t {
        OtherStays(f, f', err, err', ws[u], addr, data, u * len, t * len, len);
      }
    }
  }

  ghost predicate BlockHere(f: Flash, addr: nat, data: seq<bv8>, len: nat, t: nat) {
    Arrived(f, addr, data, t * len, t * len + len)
  }

  lemma BlockArrived(f: Flash, ws: seq<Worker>, t: nat, addr: nat, data: seq<bv8>, len: nat)
    requires ThreadsOk(f, false, ws, addr, data, len) && t < |ws| && ws[t].Finished?
    ensures Progress(ws[t], len) == len && BlockHere(f, addr, data, len, t)
  {
    hide Arrived;
    assert ThreadOk(f, false, ws[t], addr, data, t * len, len);
  }

  lemma ByteArrived(f: Flash, addr: nat, data: seq<bv8>, from: nat, to: nat, k: nat)
    requires Arrived(f, addr, data, from, to) && from <= k < to
    ensures f[addr + k] == data[k]
  {
  }

  lemma BlocksArrived(f: Flash, threads: nat, addr: nat, data: seq<bv8>, len: nat)
    requires forall t: nat :: t < threads ==> BlockHere(f, addr, data, len, t)
    requires len * threads <= |data| && addr + |data| <= |f|
    ensures Arrived(f, addr, data, 0, len * threads)
  {
    forall k: nat | k < len * threads
      ensures f[addr + k] == data[k]
    {
      hide Arrived;
      BlockIndex(k, len, threads);
      var t := k / len;
      assert BlockHere(f, addr, data, len, t);
      ByteArrived(f, addr, data, t * len, t * len + len, k);
    }
  }

  /** All threads done without an error: everything up to the end of the last block has arrived. */
  lemma AllDone(f: Flash, ws: seq<Worker>, addr: nat, data: seq<bv8>, len: nat)
    requires ThreadsOk(f, false, ws, addr, data, len)
    requires forall t :: 0 <= t < |ws| ==> ws[t].Finished?
    requires len * |ws| <= |data| && addr + |data| <= |f|
    ensures Arrived(f, addr, data, 0, len * |ws|)
    ensures Sum(AllProgress(ws, len)) == len * |ws|
  {
    hide ThreadsOk, Progress, Arrived, BlockHere;
    forall t: nat | t < |ws|
      ensures BlockHere(f, addr, data, len, t) && AllProgress(ws, len)[t] == len
    {
      BlockArrived(f, ws, t, addr, data, len);
    }
    SumSame(AllProgress(ws, len), len);
    BlocksArrived(f, |ws|, addr, data, len);
  }

  lemma OnlyNow(f: Flash, h: seq<Flash>, at: nat, d: seq<bv8>)
    ensures Only(f, h, f, h, at, d)
  {
  }

  lemma OnlyAgain(a: Flash, h: seq<Flash>, b: Flash, h': seq<Flash>, c: Flash, h'': seq<Flash>, at: nat, d: seq<bv8>)
    requires Only(a, h, b, h', at, d) && Only(b, h', c, h'', at, d)
    ensures Only(a, h, c, h'', at, d) && |c| == |a|
  {
    assert d == d[0..0 + |d|] && at + 0 == at;
    hide Only;
    OnlyChains(a, h, b, h', c, h'', at, d, 0, |d|);
  }

  lemma OverwrittenThere(f: Flash, at: nat, d: seq<bv8>)
    requires Fits(f, at, d)
    ensures Overwritten(f, at, d)[at..at + |d|] == d
  {
  }

  /** Only the bytes in landed have been written. */
  function Landed(before: Flash, all: Flash, landed: set<nat>): (f: Flash)
    requires |all| == |before|
    ensures |f| == |before|
  {
    seq(|all|, k requires 0 <= k < |all| => if k in landed then all[k] else before[k])
  }

  lemma FailedKeeps(a: Flash, h: seq<Flash>, b: Flash, h': seq<Flash>, at: nat, d: seq<bv8>, off: nat, n: nat)
    requires off + n <= |d| && Arrived(a, at, d, 0, off) && Only(a, h, b, h', at + off, d[off..off + n])
    ensures Arrived(b, at, d, 0, off)
  {
    hide Arrived, PartlyWritten;
    ArrivedStays(a, b, at, d, 0, off, off, n);
  }

  lemma LastChunk(len: nat, i: nat)
    requires i <= Chunks(len)
    ensures i == Chunks(len) ==> i * WRITE_MAX_SIZE >= len
  {
  }

  lemma NothingYet(f: Flash, addr: nat, data: seq<bv8>)
    requires Fits(f, addr, data)
    ensures Arrived(f, addr, data, 0, 0)
  {
  }

  lemma NoThreads(f: Flash, addr: nat, data: seq<bv8>, len: nat)
    ensures ThreadsOk(f, false, [], addr, data, len)
    ensures Sum(AllProgress([], len)) == 0
  {
  }

  lemma ThreadsLoosen(f: Flash, err: bool, ws: seq<Worker>, addr: nat, data: seq<bv8>, len: nat)
    requires ThreadsOk(f, err, ws, addr, data, len)
    ensures ThreadsOk(f, true, ws, addr, data, len)
  {
    hide Arrived, Progress;
    forall t | 0 <= t < |ws|
      ensures ThreadOk(f, true, ws[t], addr, data, t * len, len)
    {
      assert ThreadOk(f, err, ws[t], addr, data, t * len, len);
    }
  }

  lemma NewThread(f: Flash, err: bool, ws: seq<Worker>, threads: nat, addr: nat, data: seq<bv8>, len: nat)
    requires ThreadsOk(f, err, ws, addr, data, len)
    requires |ws| < threads && len * threads <= |data| && Fits(f, addr, data)
    ensures ThreadsOk(f, err, ws + [Test(0)], addr, data, len)
  {
    BlockEnd(|ws|, len, threads);
  }

  lemma BlockOf(f: Flash, err: bool, ws: seq<Worker>, t: nat, addr: nat, data: seq<bv8>, len: nat)
    requires ThreadsOk(f, err, ws, addr, data, len) && t < |ws| && Fits(f, addr, data)
    ensures t * len + len <= |data| && WorkerOk(ws[t], len, err)
    ensures Arrived(f, addr + t * len, data[t * len..t * len + len], 0, Progress(ws[t], len))
  {
    assert ThreadOk(f, err, ws[t], addr, data, t * len, len);
    hide Arrived, Progress;
    ProgressFits(ws[t], len, err);
    ArrivedInBlock(f, addr, data, t * len, len, Progress(ws[t], len));
  }

  lemma ThreadStepped(f: Flash, h: seq<Flash>, f': Flash, h': seq<Flash>, err: bool, err': bool, ws: seq<Worker>,
                      t: nat, w: Worker, addr: nat, data: seq<bv8>, len: nat)
    requires t < |ws| && t * len + len <= |data| && (err ==> err') && Fits(f, addr, data)
    requires ThreadsOk(f, err, ws, addr, data, len) && WorkerOk(w, len, err')
    requires Only(f, h, f', h', addr + t * len, data[t * len..t * len + len])
    requires Arrived(f', addr + t * len, data[t * len..t * len + len], 0, Progress(w, len))
    ensures ThreadsOk(f', err', ws[t := w], addr, data, len) && |f'| == |f|
  {
    hide Arrived, Progress, ThreadsOk;
    ProgressFits(w, len, err');
    ArrivedInBlock(f', addr, data, t * len, len, Progress(w, len));
    OthersStay(f, f', err, err', ws, t, w, addr, data, len);
  }

  lemma WroteNext(a: Flash, h: seq<Flash>, b: Flash, h': seq<Flash>, c: Flash, h'': seq<Flash>, at: nat,
                  d: seq<bv8>, off: nat, n: nat)
    requires off + n <= |d| && Fits(a, at, d) && Arrived(b, at, d, 0, off)
    requires Only(a, h, b, h', at, d) && Only(b, h', c, h'', at + off, d[off..off + n])
    ensures Only(a, h, c, h'', at, d) && |c| == |a|
    ensures c[at + off..at + off + n] == d[off..off + n] ==> Arrived(c, at, d, 0, off + n)
  {
    OnlyChains(a, h, b, h', c, h'', at, d, off, n);
    FailedKeeps(b, h', c, h'', at, d, off, n);
    if c[at + off..at + off + n] == d[off..off + n] {
      forall k | off <= k < off + n
        ensures c[at + k] == d[k]
      {
        assert c[at + off..at + off + n][k - off] == d[off..off + n][k - off];
      }
    }
  }

  lemma RoundKeeps(a: Flash, h: seq<Flash>, b: Flash, h': seq<Flash>, c: Flash, h'': seq<Flash>, at: nat,
                   d: seq<bv8>, off: nat)
    requires off <= |d| && Only(a, h, b, h', at, d) && Only(b, h', c, h'', at + off, d[off..])
    ensures Only(a, h, c, h'', at, d)
  {
    hide Only;
    assert d[off..] == d[off..off + (|d| - off)];
    OnlyChains(a, h, b, h', c, h'', at, d, off, |d| - off);
  }

  lemma RoundArrived(b: Flash, h': seq<Flash>, c: Flash, h'': seq<Flash>, at: nat, d: seq<bv8>, off: nat, left: nat)
    requires off + left <= |d| && Fits(b, at, d)
    requires Arrived(b, at, d, 0, off) && Only(b, h', c, h'', at + off, d[off..])
    requires Arrived(c, at + off, d[off..], 0, |d| - off - left)
    ensures Arrived(c, at, d, 0, |d| - left)
  {
    assert d[off..] == d[off..off + (|d| - off)];
    FailedKeeps(b, h', c, h'', at, d, off, |d| - off);
    ArrivedInBlock(c, at, d, off, |d| - off, |d| - off - left);
  }

  lemma Complete(a: Flash, h: seq<Flash>, c: Flash, h': seq<Flash>, at: nat, d: seq<bv8>)
    requires Fits(a, at, d) && Only(a, h, c, h', at, d) && Arrived(c, at, d, 0, |d|)
    ensures c == Overwritten(a, at, d) && c[at..at + |d|] == d
  {
    AllArrived(a, c, at, d);
  }

  // The record of a step.

  lemma CleanGoesOn(log: seq<Outcome>)
    requires Clean(log)
    ensures !GaveUp(log)
  {
  }

  lemma OtherLogged(log: seq<Outcome>, o: Outcome)
    requires Clean(log) && !o.Exchanged?
    ensures if o.ok then Clean(log + [o]) && !GaveUp(log + [o]) else GaveUp(log + [o])
  {
    if o.ok {
      GoodStaysClean(log, o);
    } else {
      BadOtherGivesUp(log, o);
    }
  }

  lemma WellOnly(was: seq<Outcome>)
    requires Clean(was)
    ensures forall log :: AllWell(was, log) ==> !GaveUp(log)
  {
    forall log | AllWell(was, log)
      ensures !GaveUp(log)
    {
      WellStaysClean(was, log);
    }
  }

  /** With a reason to give up there always will be one. */
  lemma {:induction false} GivenUpStays(log: seq<Outcome>, o: Outcome)
    requires GaveUp(log)
    ensures GaveUp(log + [o])
  {
    OneMore(log, o);
  }

  lemma CreatedThread(log: seq<Outcome>, created: bool, err: bool, ws: seq<Worker>, addr: nat, len: nat)
    requires if err then GaveUp(log) else Tracked(log, ws, addr, len)
    ensures var log' := log + [Created(created)];
      if err || !created then GaveUp(log') else Tracked(log', ws + [Test(0)], addr, len)
  {
    hide Tracked, GaveUp;
    if err {
      GivenUpStays(log, Created(created));
    } else if created {
      TrackedNew(log, ws, addr, len);
    } else {
      BadOtherGivesUp(log, Created(created));
    }
  }

  lemma StepLogged(log: seq<Outcome>, log': seq<Outcome>, err: bool, err': bool, ws: seq<Worker>, t: nat, w: Worker,
                   addr: nat, len: nat)
    requires t < |ws| && !ws[t].Finished?
    requires if err then GaveUp(log) else Tracked(log, ws, addr, len)
    requires err' <==> err || (ws[t].Write? && w.Finished?)
    requires ws[t].Test? ==> log' == log && (w.Finished? || (w == Write(ws[t].i, 0) && w.i < Chunks(len)))
    requires ws[t].Write? ==>
      && log' == log + [Exchanged(addr + t * len + ws[t].i * WRITE_MAX_SIZE, w.Test?)]
      && (w.Test? ==> w.i == ws[t].i + 1)
      && (w.Write? ==> w.i == ws[t].i && w.failures == ws[t].failures + 1 <= WRITE_RETRY_TIMES)
      && (w.Finished? ==> ws[t].failures == WRITE_RETRY_TIMES)
    ensures if err' then GaveUp(log') else Tracked(log', ws[t := w], addr, len)
  {
    hide Tracked, GaveUp, Chunks;
    if ws[t].Test? {
      if !err {
        TrackedQuietly(log, ws, t, w, addr, len);
      }
    } else {
      var o := Exchanged(addr + t * len + ws[t].i * WRITE_MAX_SIZE, w.Test?);
      assert o.at == ChunkAt(addr, len, t, ws[t].i);
      if err {
        GivenUpStays(log, o);
      } else {
        var next := if w.Test? then w else Write(ws[t].i, ws[t].failures + 1);
        TrackedExchange(log, ws, t, next, addr, len, w.Test?);
      }
    }
  }

  class Upgrade {
    /** The device's flash, and a snapshot of it after every exchange. */
    var flash: Flash
    ghost var trail: seq<Flash>
    var gErr: bool
    var gWrittenSize: nat

    /** What came of every exchange and request so far. */
    ghost var log: seq<Outcome>

    constructor (contents: Flash)
      ensures flash == contents && trail == [contents] && log == [] && Clean(log)
    {
      NothingLogged();
      flash, trail, gErr, gWrittenSize, log := contents, [contents], false, 0, [];
    }

    /** One write exchange. A failed one may have written any of its bytes. */
    method Exchange(at: nat, d: seq<bv8>) returns (ok: bool)
      requires Fits(flash, at, d)
      modifies this`flash, this`trail, this`log
      ensures Only(old(flash), old(trail), flash, trail, at, d) && |trail| == |old(trail)| + 1
      ensures ok ==> flash == Overwritten(old(flash), at, d)
      ensures log == old(log) + [Exchanged(at, ok)]
    {
      ok := *;
      var landed: set<nat> := *;
      var before, all := flash, Overwritten(flash, at, d);
      flash := if ok then all else Landed(before, all, landed);
      trail := trail + [flash];
      log := log + [Exchanged(at, ok)];
    }

    method OpenDevice() returns (ok: bool)
      modifies this`log
      ensures log == old(log) + [Opened(ok)]
    {
      ok := *;
      log := log + [Opened(ok)];
    }

    method CreateThread() returns (ok: bool)
      modifies this`log
      ensures log == old(log) + [Created(ok)]
    {
      ok := *;
      log := log + [Created(ok)];
    }

    /** The device's comparison of the stored checksum with the announced one, if it answers. */
    method AskCrc(addr: nat, len: nat, crc: bv32) returns (answered: bool, same: bool)
      requires addr + len <= |flash|
      modifies this`log
      ensures log == old(log) + [Answered(answered)]
      ensures same <==> Crc32(flash[addr..addr + len]) == crc
    {
      hide Crc32;
      answered := *;
      log := log + [Answered(answered)];
      same := Crc32(flash[addr..addr + len]) == crc;
    }

    /** ar8030_upgrade_write: one chunk, tried again up to ten times; every try leaves one snapshot. */
    method UpgradeWrite(at: nat, d: seq<bv8>) returns (ret: int)
      requires Fits(flash, at, d) && Clean(log)
      modifies this`flash, this`trail, this`log
      ensures Only(old(flash), old(trail), flash, trail, at, d)
      ensures old(log) <= log && |log| - |old(log)| == |trail| - |old(trail)|
      ensures ret == 0 || ret == -1
      ensures ret == 0 ==> flash[at..at + |d|] == d && Clean(log) && |old(trail)| < |trail|
      ensures |trail| <= |old(trail)| + 11
      ensures ret != 0 && |d| <= MAX_PAYLOAD ==> GaveUp(log) && |trail| == |old(trail)| + 11
      ensures |d| > MAX_PAYLOAD ==> ret != 0 && log == old(log) && trail == old(trail)
    {
      hide Only, Overwritten, Clean, GaveUp, Trying;
      OnlyNow(flash, trail, at, d);
      if |d| > MAX_PAYLOAD {
        return -1;
      }
      TryingAtFirst(log, at);
      var failures := 0;
      ret := 0;
      while true
        invariant |flash| == |old(flash)| && failures <= WRITE_RETRY_TIMES
        invariant |trail| == |old(trail)| + failures && |log| == |old(log)| + failures
        invariant old(log) <= log && Trying(log, at, failures)
        invariant Only(old(flash), old(trail), flash, trail, at, d)
        decreases WRITE_RETRY_TIMES - failures
      {
        label L:
        var ok := Exchange(at, d);
        OnlyAgain(old(flash), old(trail), old@L(flash), old@L(trail), flash, trail, at, d);
        TriedAgain(old@L(log), at, failures, ok);
        if !ok {
          failures := failures + 1;
          if failures > WRITE_RETRY_TIMES {
            return -1;
          }
        } else {
          OverwrittenThere(old@L(flash), at, d);
          break;
        }
      }
    }

    /** A write thread's next step: its test before a chunk, which ends it once any thread has failed, or
        one exchange. It fails only with the eleventh exchange for the same chunk. */
    method WorkerStep(w: Worker, at: nat, d: seq<bv8>) returns (w': Worker)
      requires Fits(flash, at, d) && !w.Finished? && WorkerOk(w, |d|, gErr)
      requires Arrived(flash, at, d, 0, Progress(w, |d|))
      modifies this
      ensures Only(old(flash), old(trail), flash, trail, at, d)
      ensures WorkerOk(w', |d|, gErr) && Arrived(flash, at, d, 0, Progress(w', |d|))
      ensures StepsLeft(w', |d|) < StepsLeft(w, |d|)
      ensures gErr <==> old(gErr) || (w.Write? && w'.Finished?)
      ensures w.Test? ==> log == old(log) && (w'.Finished? || (w' == Write(w.i, 0) && w.i < Chunks(|d|)))
      ensures w.Write? ==> log == old(log) + [Exchanged(at + w.i * WRITE_MAX_SIZE, w'.Test?)]
      ensures w.Write? && w'.Test? ==> w'.i == w.i + 1
      ensures w.Test? ==> flash == old(flash) && (old(gErr) ==> w'.Finished?) && (w'.Write? ==> w'.failures == 0)
      ensures w.Write? && w'.Write? ==> w'.i == w.i && w'.failures == w.failures + 1 <= WRITE_RETRY_TIMES
      ensures w.Write? && w'.Finished? ==> w.failures == WRITE_RETRY_TIMES && gErr
      ensures gWrittenSize == old(gWrittenSize) + Progress(w', |d|) - Progress(w, |d|)
    {
      hide Only, Overwritten, Arrived, Chunks, ChunkLen;
      OnlyNow(flash, trail, at, d);
      match w
      case Test(i) =>
        if i < Chunks(|d|) && !gErr {
          w' := Write(i, 0);
        } else {
          LastChunk(|d|, i);
          w' := Finished(Min(i * WRITE_MAX_SIZE, |d|));
        }
      case Write(i, failures) =>
        var off, n := i * WRITE_MAX_SIZE, ChunkLen(|d|, i);
        ChunkFits(|d|, i);
        var ok := Exchange(at + off, d[off..off + n]);
        OnlyChains(old(flash), old(trail), old(flash), old(trail), flash, trail, at, d, off, n);
        if ok {
          ArrivedChunk(old(flash), flash, at, d, 0, off, n);
          gWrittenSize := gWrittenSize + n;
          w' := Test(i + 1);
        } else {
          FailedKeeps(old(flash), old(trail), flash, trail, at, d, off, n);
          if failures + 1 > WRITE_RETRY_TIMES {
            gErr := true;
            w' := Finished(off);
          } else {
            w' := Write(i, failures + 1);
          }
        }
    }

    /** The write threads of one transmission, created one by one and taking steps in any order, until
        all of them are done. */
    method RunThreads(threads: nat, len: nat, addr: nat, data: seq<bv8>)
      requires Fits(flash, addr, data) && len * threads <= |data| && !gErr && Clean(log)
      modifies this
      ensures Only(old(flash), old(trail), flash, trail, addr, data)
      ensures old(log) <= log && (gErr <==> GaveUp(log)) && (!gErr ==> Clean(log))
      ensures |flash| == |old(flash)|
      ensures !gErr ==> Arrived(flash, addr, data, 0, len * threads)
      ensures !gErr ==> gWrittenSize == old(gWrittenSize) + len * threads
    {
      hide Only, Arrived, ThreadsOk, WorkerOk, Progress, StepsLeft, Clean, GaveUp, Tracked;
      var workers: seq<Worker>, spawning := [], true;
      OnlyNow(flash, trail, addr, data);
      NoThreads(flash, addr, data, len);
      TrackedAtFirst(log, addr, len);
      while spawning || exists t :: 0 <= t < |workers| && !workers[t].Finished?
        invariant |flash| == |old(flash)| && old(log) <= log
        invariant if gErr then GaveUp(log) else Tracked(log, workers, addr, len)
        invariant |workers| <= threads && (spawning || gErr || |workers| == threads)
        invariant Only(old(flash), old(trail), flash, trail, addr, data)
        invariant ThreadsOk(flash, gErr, workers, addr, data, len)
        invariant gWrittenSize == old(gWrittenSize) + Sum(AllProgress(workers, len))
        decreases if spawning then 1 + threads - |workers| else 0, Sum(AllStepsLeft(workers, len))
      {
        var main: bool := *;
        if spawning && (main || forall t :: 0 <= t < |workers| ==> workers[t].Finished?) {
          if |workers| == threads {
            spawning := false;
          } else {
            label C:
            var created := CreateThread();
            CreatedThread(old@C(log), created, gErr, workers, addr, len);
            if created {
              NewThread(flash, gErr, workers, threads, addr, data, len);
              NewInSums(workers, len);
              workers := workers + [Test(0)];
            } else {
              ThreadsLoosen(flash, gErr, workers, addr, data, len);
              gErr, spawning := true, false;
            }
          }
        } else {
          var t: nat :| t < |workers| && !workers[t].Finished?;
          label L:
          var off := t * len;
          BlockOf(flash, gErr, workers, t, addr, data, len);
          var w := WorkerStep(workers[t], addr + off, data[off..off + len]);
          OnlyChains(old(flash), old(trail), old@L(flash), old@L(trail), flash, trail, addr, data, off, len);
          ThreadStepped(old@L(flash), old@L(trail), flash, trail, old@L(gErr), gErr, workers, t, w, addr, data, len);
          StepLogged(old@L(log), log, old@L(gErr), gErr, workers, t, w, addr, len);
          StepInSums(workers, t, w, len);
          workers := workers[t := w];
        }
      }
      if !gErr {
        AllDone(flash, workers, addr, data, len);
        TrackedAtLast(log, workers, addr, len);
        assert !GaveUp(log) by { CleanGoesOn(log); }
      }
    }

    /** ar8030_data_transmit: as many whole blocks of the data as there are threads for; left is what
        they leave over. */
    method DataTransmit(addr: nat, data: seq<bv8>) returns (ret: int, left: nat)
      requires Fits(flash, addr, data) && Clean(log)
      modifies this
      ensures Only(old(flash), old(trail), flash, trail, addr, data) && |flash| == |old(flash)|
      ensures left == Left(|data|)
      ensures old(log) <= log && ret == (if GaveUp(log) then -1 else 0) && (ret == 0 ==> Clean(log))
      ensures ret == 0 ==> Arrived(flash, addr, data, 0, |data| - left)
      ensures ret == 0 ==> gWrittenSize == old(gWrittenSize) + |data| - left
    {
      hide Only, Arrived, GaveUp, Clean;
      CleanGoesOn(log);
      gErr := false;
      var threads, len := Threads(|data|), BlockLen(|data|);
      assert len * threads == |data| - Left(|data|);
      hide BlockLen, Threads;
      left := |data| - len * threads;
      OnlyNow(flash, trail, addr, data);
      if threads == 0 {
        NothingYet(flash, addr, data);
        return 0, left;
      }
      label O:
      var open := OpenDevice();
      OtherLogged(old@O(log), Opened(open));
      if !open {
        return -1, left;
      }
      RunThreads(threads, len, addr, data);
      ret := if gErr then -1 else 0;
    }

    /** The device's comparison of the checksum of what it has stored with the announced one. */
    method ChkCrc(addr: nat, len: nat, crc: bv32) returns (ret: int)
      requires addr + len <= |flash| && Clean(log)
      modifies this`log
      ensures old(log) <= log && (ret == 0 ==> Clean(log))
      ensures ret == 0 ==> |old(log)| < |log| && log[|log| - 1] == Answered(true)
      ensures ret == 0 <==> !GaveUp(log) && Crc32(flash[addr..addr + len]) == crc
      ensures ret == 0 || ret == -1
    {
      hide Crc32, Clean, GaveUp;
      var answered, same := AskCrc(addr, len, crc);
      OtherLogged(old(log), Answered(answered));
      ret := if answered && same then 0 else -1;
    }

    /** The chunks that the threads left over, one after the other. */
    method WriteRest(addr: nat, data: seq<bv8>, from: nat) returns (ret: int)
      requires Fits(flash, addr, data) && from <= |data| && gWrittenSize == from && Clean(log)
      requires Arrived(flash, addr, data, 0, from)
      modifies this
      ensures Only(old(flash), old(trail), flash, trail, addr, data) && |flash| == |old(flash)|
      ensures old(log) <= log && ret == (if GaveUp(log) then -1 else 0) && (ret == 0 ==> Clean(log))
      ensures ret == 0 ==> Arrived(flash, addr, data, 0, |data|)
    {
      hide Only, Arrived, Clean, GaveUp;
      OnlyNow(flash, trail, addr, data);
      var left: nat := |data| - from;
      while left > WRITE_MAX_SIZE
        invariant |flash| == |old(flash)| && gWrittenSize + left == |data|
        invariant old(log) <= log && Clean(log)
        invariant Only(old(flash), old(trail), flash, trail, addr, data)
        invariant Arrived(flash, addr, data, 0, gWrittenSize)
      {
        label L:
        var off := gWrittenSize;
        ret := UpgradeWrite(addr + off, data[off..off + WRITE_MAX_SIZE]);
        WroteNext(old(flash), old(trail), old@L(flash), old@L(trail), flash, trail, addr, data, off, WRITE_MAX_SIZE);
        if ret < 0 {
          return -1;
        }
        gWrittenSize := gWrittenSize + WRITE_MAX_SIZE;
        left := left - WRITE_MAX_SIZE;
      }
      if left != 0 {
        label M:
        var off := gWrittenSize;
        ret := UpgradeWrite(addr + off, data[off..off + left]);
        WroteNext(old(flash), old(trail), old@M(flash), old@M(trail), flash, trail, addr, data, off, left);
        if ret < 0 {
          return -1;
        }
      }
      ret := 0;
      CleanGoesOn(log);
    }

    /** The rounds of parallel writing, as long as more than a page is left. */
    method WriteRounds(addr: nat, data: seq<bv8>) returns (ret: int, ghost rounds: nat)
      requires Fits(flash, addr, data) && Clean(log)
      modifies this
      ensures Only(old(flash), old(trail), flash, trail, addr, data) && |flash| == |old(flash)|
      ensures old(log) <= log && ret == (if GaveUp(log) then -1 else 0) && (ret == 0 ==> Clean(log))
      ensures ret == 0 ==> gWrittenSize <= |data| <= gWrittenSize + PAGE
      ensures ret == 0 ==> Arrived(flash, addr, data, 0, gWrittenSize)
      ensures rounds <= 2
    {
      hide Only, Arrived, Left, Clean, GaveUp, PartlyWritten;
      CleanGoesOn(log);
      var left := |data|;
      ret, gWrittenSize, rounds := 0, 0, 0;
      OnlyNow(flash, trail, addr, data);
      NothingYet(flash, addr, data);
      TwoRoundsAtMost(|data|);
      while left > PAGE
        invariant |flash| == |old(flash)| && gWrittenSize + left == |data|
        invariant old(log) <= log && Clean(log) && !GaveUp(log) && ret == 0
        invariant Only(old(flash), old(trail), flash, trail, addr, data)
        invariant Arrived(flash, addr, data, 0, gWrittenSize)
        invariant rounds <= 2 && left == (if rounds == 0 then |data| else if rounds == 1 then Left(|data|) else Left(Left(|data|)))
        decreases left
      {
        label L:
        var off := gWrittenSize;
        TwoRoundsAtMost(left);
        ret, left := DataTransmit(addr + off, data[off..]);
        RoundKeeps(old(flash), old(trail), old@L(flash), old@L(trail), flash, trail, addr, data, off);
        rounds := rounds + 1;
        if ret != 0 {
          ret := -1;
          return;
        }
        RoundArrived(old@L(flash), old@L(trail), flash, trail, addr, data, off, left);
      }
    }

    /** ar8030_upgrade_partition. Whatever happens on the way, nothing outside the range is ever touched
        and every byte inside is the old or the new one. It fails exactly if a chunk has failed eleven
        times in a row, or the device handle, a thread or the checksum was refused, and never because the
        checksums differ; otherwise the data is there, and the device has confirmed the checksum. If everything went well it does not fail. */
    method UpgradePartition(addr: nat, data: seq<bv8>) returns (ret: int, ghost rounds: nat)
      requires Fits(flash, addr, data) && Clean(log)
      modifies this
      ensures Only(old(flash), old(trail), flash, trail, addr, data) && |flash| == |old(flash)|
      ensures old(log) <= log && ret == (if GaveUp(log) then -1 else 0) && (ret == 0 ==> Clean(log))
      ensures AllWell(old(log), log) ==> ret == 0
      ensures ret == 0 ==> flash == Overwritten(old(flash), addr, data)
      ensures ret == 0 ==> |old(log)| < |log| && log[|log| - 1] == Answered(true)
      ensures rounds <= 2
    {
      hide Only, Arrived, Crc32, Overwritten, Clean, GaveUp, AllWell;
      WellOnly(log);
      var crc := GetCrc32(data);
      ret, rounds := WriteRounds(addr, data);
      if ret != 0 {
        return;
      }
      label M:
      ret := WriteRest(addr, data, gWrittenSize);
      OnlyAgain(old(flash), old(trail), old@M(flash), old@M(trail), flash, trail, addr, data);
      if ret < 0 {
        return;
      }
      Complete(old(flash), old(trail), flash, trail, addr, data);
      ret := ChkCrc(addr, |data|, crc);
    }
  }
}
